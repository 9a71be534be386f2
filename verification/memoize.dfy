/** The two memoizing decorators, `cache_llm_result` and
    `cache_api_response(ttl)`, as step functions. One step is one call of
    the wrapped function through the decorator: it takes the cache, the
    call's arguments, the time of the lookup (`now`), the time the wrapped
    call finished (`doneAt`; the decorator awaits it between the lookup and
    the write-back) and the outcome the wrapped call has if it is invoked.
    It returns the cache afterwards, what the caller receives, and whether
    the wrapped function ran. */
module Memoize {
  import opened Wrappers
  import opened NameSort
  import opened PyValues
  import opened CacheKeys
  import opened LruCache
  import opened PyStrings

  /** Why a call raised: a `TypeError` from binding or rendering the
      arguments, or whatever the wrapped function itself raised. */
  datatype Error = TypeError | CalleeError(message: string)

  /** What a call gives its caller: a value, or an exception. */
  datatype Outcome = Returned(value: Value) | Raised(error: Error)

  datatype Step = Step(cache: Cache<Value>, outcome: Outcome, invoked: bool)

  /** The two process-wide caches. */
  datatype Caches = Caches(llm: Cache<Value>, api: Cache<Value>)

  const LlmMaxSize := 500
  const LlmDefaultTtl := 86400
  const ApiMaxSize := 1000
  const ApiDefaultTtl := 300

  /** `llm_cache` and `api_cache` as the module creates them: empty, 500
      entries for a day for language-model results, 1000 entries for five
      minutes for API responses. */
  function Globals(): (g: Caches)
    ensures Size(g.llm) == 0 && g.llm.maxSize == 500 && g.llm.defaultTtl == 86400
    ensures Size(g.api) == 0 && g.api.maxSize == 1000 && g.api.defaultTtl == 300
    ensures Valid(g.llm) && WithinBound(g.llm) && Valid(g.api) && WithinBound(g.api)
  {
    Caches(Create(LlmMaxSize, LlmDefaultTtl), Create(ApiMaxSize, ApiDefaultTtl))
  }

  /** `kwargs[name]`. */
  function KwArg(kwargs: seq<Named<Value>>, name: string): Value
    requires name in NameSet(kwargs)
  {
    if kwargs[0].name == name then kwargs[0].value
    else
      assert name in NameSet(kwargs[1..]) by {
        var j :| 0 <= j < |kwargs| && kwargs[j].name == name;
        assert kwargs[1..][j - 1] == kwargs[j];
      }
      KwArg(kwargs[1..], name)
  }

  /** `kwargs` without the argument called `name`. */
  function DropKwArg(kwargs: seq<Named<Value>>, name: string): seq<Named<Value>>
  {
    if kwargs == [] then []
    else if kwargs[0].name == name then DropKwArg(kwargs[1..], name)
    else [kwargs[0]] + DropKwArg(kwargs[1..], name)
  }

  /** `"force_analyze" in kwargs and kwargs["force_analyze"]`. */
  predicate Forced(kwargs: seq<Named<Value>>)
  {
    "force_analyze" in NameSet(kwargs) && Truthy(KwArg(kwargs, "force_analyze"))
  }

  /** `cached_result is not None`: a stored `None` reads as a miss. */
  predicate IsHit(read: Read<Value>)
  {
    read.found.Some? && read.found.value != VNone
  }

  /** `isinstance(result, dict) and "error" not in result`. */
  predicate LlmCacheable(v: Value)
  {
    v.VDict? && !DictHasKey(v, "error")
  }

  /** `not isinstance(result, dict) or "error" not in result`. */
  predicate ApiCacheable(v: Value)
  {
    !DictHasKey(v, "error")
  }

  /** `timedelta(seconds=ttl)` after `None` has been replaced by the
      default: an int (a bool counts as 0 or 1) is a number of seconds,
      anything else raises `TypeError`. */
  function TtlArgument(v: Value): Option<Option<int>>
  {
    match v
    case VNone => Some(None)
    case VInt(i) => Some(Some(i))
    case VBool(b) => Some(Some(if b then 1 else 0))
    case _ => None
  }

  /** `llm_cache.set(result, *args, **kwargs)` as Python binds it: a keyword
      argument called `value` collides with `set`'s own parameter and raises
      `TypeError`; one called `ttl` is taken as the time-to-live and so is
      not part of the key `set` derives. */
  function LlmWriteBack(c: Cache<Value>, md5: string -> string, args: seq<Value>,
                        kwargs: seq<Named<Value>>, v: Value, doneAt: int): Option<Cache<Value>>
  {
    if "value" in NameSet(kwargs) then None
    else
      var ttl := if "ttl" in NameSet(kwargs) then TtlArgument(KwArg(kwargs, "ttl")) else Some(None);
      match (DeriveKey(md5, args, DropKwArg(kwargs, "ttl")), ttl)
      case (Some(key), Some(t)) => Some(Set(c, key, v, t, doneAt))
      case _ => None
  }

  /** One call through `cache_llm_result`. A truthy `force_analyze` keyword
      argument runs the function with the cache neither read nor written;
      otherwise a hit returns the cached value without running it, and a
      miss runs it and stores the result when it is a dict without an
      "error" key. */
  function LlmStep(c: Cache<Value>, md5: string -> string, args: seq<Value>, kwargs: seq<Named<Value>>,
                   now: int, doneAt: int, call: Outcome): (r: Step)
    ensures !r.invoked && r.outcome.Returned? ==>
      && DeriveKey(md5, args, kwargs).Some?
      && IsHit(Get(c, DeriveKey(md5, args, kwargs).value, now))
      && r.outcome.value == Get(c, DeriveKey(md5, args, kwargs).value, now).found.value
      && r.outcome.value != VNone
      && r.cache == Get(c, DeriveKey(md5, args, kwargs).value, now).cache
    ensures !Forced(kwargs) && ("self" in NameSet(kwargs) || !CallRenderable(args, kwargs)) ==>
      r == Step(c, Raised(TypeError), false)
  {
    if Forced(kwargs) then Step(c, call, true)
    else if "self" in NameSet(kwargs) then Step(c, Raised(TypeError), false)
    else match DeriveKey(md5, args, kwargs)
      case None => Step(c, Raised(TypeError), false)
      case Some(key) =>
        var read := Get(c, key, now);
        if IsHit(read) then Step(read.cache, Returned(read.found.value), false)
        else match call
          case Raised(_) => Step(read.cache, call, true)
          case Returned(v) =>
            if !LlmCacheable(v) then Step(read.cache, call, true)
            else match LlmWriteBack(read.cache, md5, args, kwargs, v, doneAt)
              case None => Step(read.cache, Raised(TypeError), true)
              case Some(stored) => Step(stored, call, true)
  }

  /** One call through `cache_api_response(ttl)` wrapping the function
      called `name`: the key leads with the function's name, every result
      but a dict with an "error" key is stored, and it is stored for `ttl`
      seconds. `api_cache.set(result, name, *args, ttl=ttl, **kwargs)`
      raises `TypeError` when the call itself has a keyword argument called
      `ttl` or `value`. */
  function ApiStep(c: Cache<Value>, md5: string -> string, name: string, ttl: int,
                   args: seq<Value>, kwargs: seq<Named<Value>>,
                   now: int, doneAt: int, call: Outcome): (r: Step)
    ensures !r.invoked && r.outcome.Returned? ==>
      && DeriveKey(md5, [VStr(name)] + args, kwargs).Some?
      && IsHit(Get(c, DeriveKey(md5, [VStr(name)] + args, kwargs).value, now))
      && r.outcome.value == Get(c, DeriveKey(md5, [VStr(name)] + args, kwargs).value, now).found.value
      && r.outcome.value != VNone
      && r.cache == Get(c, DeriveKey(md5, [VStr(name)] + args, kwargs).value, now).cache
    ensures "self" in NameSet(kwargs) || !CallRenderable([VStr(name)] + args, kwargs) ==>
      r == Step(c, Raised(TypeError), false)
  {
    if "self" in NameSet(kwargs) then Step(c, Raised(TypeError), false)
    else match DeriveKey(md5, [VStr(name)] + args, kwargs)
      case None => Step(c, Raised(TypeError), false)
      case Some(key) =>
        var read := Get(c, key, now);
        if IsHit(read) then Step(read.cache, Returned(read.found.value), false)
        else match call
          case Raised(_) => Step(read.cache, call, true)
          case Returned(v) =>
            if !ApiCacheable(v) then Step(read.cache, call, true)
            else if "ttl" in NameSet(kwargs) || "value" in NameSet(kwargs) then Step(read.cache, Raised(TypeError), true)
            else Step(Set(read.cache, key, v, Some(ttl), doneAt), call, true)
  }

  /** The `cache_llm_result` write-back as evidently intended: the result is
      stored under the key the lookup used, for the default time-to-live,
      whatever the keyword arguments are called. */
  function LlmStepIntended(c: Cache<Value>, md5: string -> string, args: seq<Value>, kwargs: seq<Named<Value>>,
                           now: int, doneAt: int, call: Outcome): (r: Step)
    ensures !r.invoked && r.outcome.Returned? ==>
      && DeriveKey(md5, args, kwargs).Some?
      && IsHit(Get(c, DeriveKey(md5, args, kwargs).value, now))
      && r.outcome.value == Get(c, DeriveKey(md5, args, kwargs).value, now).found.value
      && r.outcome.value != VNone
      && r.cache == Get(c, DeriveKey(md5, args, kwargs).value, now).cache
  {
    if Forced(kwargs) then Step(c, call, true)
    else if "self" in NameSet(kwargs) then Step(c, Raised(TypeError), false)
    else match DeriveKey(md5, args, kwargs)
      case None => Step(c, Raised(TypeError), false)
      case Some(key) =>
        var read := Get(c, key, now);
        if IsHit(read) then Step(read.cache, Returned(read.found.value), false)
        else match call
          case Raised(_) => Step(read.cache, call, true)
          case Returned(v) =>
            if !LlmCacheable(v) then Step(read.cache, call, true)
            else Step(Set(read.cache, key, v, None, doneAt), call, true)
  }

  lemma {:induction false} DropAbsentKwArg(kwargs: seq<Named<Value>>, name: string)
    requires name !in NameSet(kwargs)
    ensures DropKwArg(kwargs, name) == kwargs
  {
    if kwargs != [] {
      assert kwargs[0].name in NameSet(kwargs);
      assert NameSet(kwargs[1..]) <= NameSet(kwargs) by {
        forall n | n in NameSet(kwargs[1..]) ensures n in NameSet(kwargs) {
          var j :| 0 <= j < |kwargs[1..]| && kwargs[1..][j].name == n;
          assert kwargs[j + 1].name == n;
        }
      }
      DropAbsentKwArg(kwargs[1..], name);
      assert kwargs == [kwargs[0]] + kwargs[1..];
    }
  }

  /** `get` keeps the cache well formed and never grows it. */
  lemma GetKeepsInvariant(c: Cache<Value>, key: string, now: int)
    requires Valid(c) && WithinBound(c)
    ensures Valid(Get(c, key, now).cache) && WithinBound(Get(c, key, now).cache)
  {
    if key in Keys(c.entries) {
      var i := IndexOf(c.entries, key);
      if Expired(c.entries[i], now) {
        GetExpired(c, i, now);
      } else {
        GetHit(c, i, now);
      }
    }
  }

  /** With a truthy `force_analyze`, the function runs and the cache is
      neither read nor written. */
  lemma LlmForceBypass(c: Cache<Value>, md5: string -> string, args: seq<Value>, kwargs: seq<Named<Value>>,
                       now: int, doneAt: int, call: Outcome)
    requires Forced(kwargs)
    ensures LlmStep(c, md5, args, kwargs, now, doneAt, call) == Step(c, call, true)
  {
  }

  /** A live stored result that is not `None` is returned as is, its entry
      becomes the most recently used, and the function does not run. */
  lemma LlmHit(c: Cache<Value>, md5: string -> string, args: seq<Value>, kwargs: seq<Named<Value>>,
               now: int, doneAt: int, call: Outcome, i: nat)
    requires Valid(c) && i < |c.entries| && !Expired(c.entries[i], now) && c.entries[i].value != VNone
    requires !Forced(kwargs) && "self" !in NameSet(kwargs)
    requires DeriveKey(md5, args, kwargs) == Some(c.entries[i].key)
    ensures LlmStep(c, md5, args, kwargs, now, doneAt, call)
      == Step(c.(entries := c.entries[..i] + c.entries[i + 1..] + [c.entries[i]]), Returned(c.entries[i].value), false)
  {
    GetHit(c, i, now);
  }

  /** On a miss the function runs; its result is returned, and it is stored
      (for the default time-to-live) exactly when it is a dict without an
      "error" key. An exception is passed on and nothing is stored. */
  lemma LlmMiss(c: Cache<Value>, md5: string -> string, args: seq<Value>, kwargs: seq<Named<Value>>,
                now: int, doneAt: int, call: Outcome, key: string)
    requires !Forced(kwargs) && "self" !in NameSet(kwargs) && "ttl" !in NameSet(kwargs) && "value" !in NameSet(kwargs)
    requires DeriveKey(md5, args, kwargs) == Some(key) && !IsHit(Get(c, key, now))
    ensures LlmStep(c, md5, args, kwargs, now, doneAt, call).invoked
    ensures LlmStep(c, md5, args, kwargs, now, doneAt, call).outcome == call
    ensures LlmStep(c, md5, args, kwargs, now, doneAt, call).cache
      == if call.Returned? && LlmCacheable(call.value)
         then Set(Get(c, key, now).cache, key, call.value, None, doneAt)
         else Get(c, key, now).cache
  {
    DropAbsentKwArg(kwargs, "ttl");
  }

  /** Memoization works: after a miss whose dict result was stored, the
      same call while the entry lives returns that result without running
      the function again. */
  lemma LlmSecondCallHits(c: Cache<Value>, md5: string -> string, args: seq<Value>, kwargs: seq<Named<Value>>,
                          now: int, doneAt: int, v: Value, later: int, doneLater: int, call': Outcome)
    requires Valid(c) && WithinBound(c) && c.maxSize >= 1
    requires !Forced(kwargs) && "self" !in NameSet(kwargs) && "ttl" !in NameSet(kwargs) && "value" !in NameSet(kwargs)
    requires CallRenderable(args, kwargs) && !IsHit(Get(c, DeriveKey(md5, args, kwargs).value, now))
    requires LlmCacheable(v) && later <= doneAt + c.defaultTtl
    ensures var first := LlmStep(c, md5, args, kwargs, now, doneAt, Returned(v));
      && first.invoked && first.outcome == Returned(v)
      && LlmStep(first.cache, md5, args, kwargs, later, doneLater, call').outcome == Returned(v)
      && !LlmStep(first.cache, md5, args, kwargs, later, doneLater, call').invoked
  {
    var key := DeriveKey(md5, args, kwargs).value;
    LlmMiss(c, md5, args, kwargs, now, doneAt, Returned(v), key);
    GetKeepsInvariant(c, key, now);
    SetThenGet(Get(c, key, now).cache, key, v, None, doneAt, later);
  }

  /** After a miss, the key never reads as a hit in the cache the lookup left. */
  lemma MissStaysMiss(c: Cache<Value>, key: string, now: int, later: int)
    requires Valid(c) && !IsHit(Get(c, key, now))
    ensures !IsHit(Get(Get(c, key, now).cache, key, later))
  {
    if key in Keys(c.entries) {
      var i := IndexOf(c.entries, key);
      var s := c.entries;
      if Expired(s[i], now) {
        GetExpired(c, i, now);
        var t := s[..i] + s[i + 1..];
        forall j | 0 <= j < |t| ensures t[j].key != key {
          assert t[j] == s[if j < i then j else j + 1];
        }
      } else {
        GetHit(c, i, now);
        var r := Get(c, key, now).cache;
        var last := |r.entries| - 1;
        assert r.entries[last] == s[i];
        if Expired(r.entries[last], later) {
          GetExpired(r, last, later);
        } else {
          GetHit(r, last, later);
        }
      }
    }
  }

  /** A result that is not cached (an error dict, or anything but a dict)
      leaves nothing behind: the same call runs the function again. */
  lemma LlmUncacheableRerun(c: Cache<Value>, md5: string -> string, args: seq<Value>, kwargs: seq<Named<Value>>,
                            now: int, doneAt: int, v: Value, later: int, doneLater: int, call': Outcome)
    requires Valid(c)
    requires !Forced(kwargs) && "self" !in NameSet(kwargs)
    requires CallRenderable(args, kwargs) && !IsHit(Get(c, DeriveKey(md5, args, kwargs).value, now))
    requires !LlmCacheable(v)
    ensures var first := LlmStep(c, md5, args, kwargs, now, doneAt, Returned(v));
      && first.invoked && first.outcome == Returned(v)
      && LlmStep(first.cache, md5, args, kwargs, later, doneLater, call').invoked
  {
    MissStaysMiss(c, DeriveKey(md5, args, kwargs).value, now, later);
  }

  /** The corrected write-back agrees with the code as written on every call
      without a keyword argument called `ttl` or `value`. */
  lemma LlmIntendedAgrees(c: Cache<Value>, md5: string -> string, args: seq<Value>, kwargs: seq<Named<Value>>,
                          now: int, doneAt: int, call: Outcome)
    requires "ttl" !in NameSet(kwargs) && "value" !in NameSet(kwargs)
    ensures LlmStepIntended(c, md5, args, kwargs, now, doneAt, call) == LlmStep(c, md5, args, kwargs, now, doneAt, call)
  {
    DropAbsentKwArg(kwargs, "ttl");
  }

  /** With the corrected write-back a stored result is found again by the
      same call, whatever its keyword arguments are called. */
  lemma LlmIntendedSecondCallHits(c: Cache<Value>, md5: string -> string, args: seq<Value>, kwargs: seq<Named<Value>>,
                                  now: int, doneAt: int, v: Value, later: int, doneLater: int, call': Outcome)
    requires Valid(c) && WithinBound(c) && c.maxSize >= 1
    requires !Forced(kwargs) && "self" !in NameSet(kwargs)
    requires CallRenderable(args, kwargs) && !IsHit(Get(c, DeriveKey(md5, args, kwargs).value, now))
    requires LlmCacheable(v) && later <= doneAt + c.defaultTtl
    ensures var first := LlmStepIntended(c, md5, args, kwargs, now, doneAt, Returned(v));
      && first.invoked && first.outcome == Returned(v)
      && LlmStepIntended(first.cache, md5, args, kwargs, later, doneLater, call').outcome == Returned(v)
      && !LlmStepIntended(first.cache, md5, args, kwargs, later, doneLater, call').invoked
  {
    var key := DeriveKey(md5, args, kwargs).value;
    GetKeepsInvariant(c, key, now);
    SetThenGet(Get(c, key, now).cache, key, v, None, doneAt, later);
  }

  function Identity(s: string): string
  {
    s
  }

  /** As written, `cache_llm_result` never finds a result again when the
      call has a `ttl` keyword argument: the lookup key includes
      "ttl:60", the key `set` stores under does not. */
  lemma LlmTtlKeywordNeverHits()
    ensures var c := Globals().llm;
      var args := [VStr("resume")];
      var kwargs := [Named("ttl", VInt(60))];
      var first := LlmStep(c, Identity, args, kwargs, 0, 0, Returned(VDict([])));
      && Size(first.cache) == 1
      && LlmStep(first.cache, Identity, args, kwargs, 1, 1, Returned(VDict([]))).invoked
  {
    // The lookup uses "resume|ttl:60"; the write-back stores under "resume".
  }

  /** As written, a miss on a call with a keyword argument called `value`
      runs the function and then fails in the write-back: a result that
      would be stored becomes a `TypeError` for the caller, and nothing is
      stored. Other outcomes pass through as on any miss. */
  lemma LlmValueKeywordRaises(c: Cache<Value>, md5: string -> string, args: seq<Value>, kwargs: seq<Named<Value>>,
                              now: int, doneAt: int, call: Outcome, key: string)
    requires !Forced(kwargs) && "self" !in NameSet(kwargs) && "value" in NameSet(kwargs)
    requires DeriveKey(md5, args, kwargs) == Some(key) && !IsHit(Get(c, key, now))
    ensures LlmStep(c, md5, args, kwargs, now, doneAt, call).invoked
    ensures LlmStep(c, md5, args, kwargs, now, doneAt, call).cache == Get(c, key, now).cache
    ensures LlmStep(c, md5, args, kwargs, now, doneAt, call).outcome
      == if call.Returned? && LlmCacheable(call.value) then Raised(TypeError) else call
  {
  }

  /** As written, a miss on a call with a keyword argument called `ttl`
      (and none called `value`) stores a cacheable result under the key of
      the call WITHOUT that argument, for the time-to-live it gives; a
      `ttl` that `set` cannot use becomes a `TypeError` after the function
      ran. The lookup key keeps the argument; `LlmTtlKeywordNeverHits`
      shows a call whose two keys differ. */
  lemma LlmTtlKeywordStoresElsewhere(c: Cache<Value>, md5: string -> string, args: seq<Value>, kwargs: seq<Named<Value>>,
                                     now: int, doneAt: int, v: Value, key: string, storeKey: string)
    requires !Forced(kwargs) && "self" !in NameSet(kwargs) && "ttl" in NameSet(kwargs) && "value" !in NameSet(kwargs)
    requires DeriveKey(md5, args, kwargs) == Some(key) && !IsHit(Get(c, key, now))
    requires DeriveKey(md5, args, DropKwArg(kwargs, "ttl")) == Some(storeKey)
    requires LlmCacheable(v)
    ensures LlmStep(c, md5, args, kwargs, now, doneAt, Returned(v)).invoked
    ensures TtlArgument(KwArg(kwargs, "ttl")).Some? ==>
      LlmStep(c, md5, args, kwargs, now, doneAt, Returned(v))
        == Step(Set(Get(c, key, now).cache, storeKey, v, TtlArgument(KwArg(kwargs, "ttl")).value, doneAt), Returned(v), true)
    ensures TtlArgument(KwArg(kwargs, "ttl")).None? ==>
      LlmStep(c, md5, args, kwargs, now, doneAt, Returned(v)) == Step(Get(c, key, now).cache, Raised(TypeError), true)
  {
  }

  /** `cache_api_response` stores every result but an error dict, under a
      key led by the function's name, for the decorator's `ttl`. */
  lemma ApiMiss(c: Cache<Value>, md5: string -> string, name: string, ttl: int, args: seq<Value>,
                kwargs: seq<Named<Value>>, now: int, doneAt: int, call: Outcome, key: string)
    requires "self" !in NameSet(kwargs) && "ttl" !in NameSet(kwargs) && "value" !in NameSet(kwargs)
    requires DeriveKey(md5, [VStr(name)] + args, kwargs) == Some(key) && !IsHit(Get(c, key, now))
    ensures ApiStep(c, md5, name, ttl, args, kwargs, now, doneAt, call).invoked
    ensures ApiStep(c, md5, name, ttl, args, kwargs, now, doneAt, call).outcome == call
    ensures ApiStep(c, md5, name, ttl, args, kwargs, now, doneAt, call).cache
      == if call.Returned? && ApiCacheable(call.value)
         then Set(Get(c, key, now).cache, key, call.value, Some(ttl), doneAt)
         else Get(c, key, now).cache
  {
  }

  /** As written, a miss on a call with a keyword argument called `ttl` or
      `value` runs the handler and then fails in the write-back: a result
      that would be stored becomes a `TypeError` for the caller, and
      nothing is stored. An error dict or an exception passes through. */
  lemma ApiReservedKeywordRaises(c: Cache<Value>, md5: string -> string, name: string, ttl: int, args: seq<Value>,
                                 kwargs: seq<Named<Value>>, now: int, doneAt: int, call: Outcome, key: string)
    requires "self" !in NameSet(kwargs) && ("ttl" in NameSet(kwargs) || "value" in NameSet(kwargs))
    requires DeriveKey(md5, [VStr(name)] + args, kwargs) == Some(key) && !IsHit(Get(c, key, now))
    ensures ApiStep(c, md5, name, ttl, args, kwargs, now, doneAt, call).invoked
    ensures ApiStep(c, md5, name, ttl, args, kwargs, now, doneAt, call).cache == Get(c, key, now).cache
    ensures ApiStep(c, md5, name, ttl, args, kwargs, now, doneAt, call).outcome
      == if call.Returned? && ApiCacheable(call.value) then Raised(TypeError) else call
  {
  }

  /** A live stored response that is not `None` is returned without running
      the handler. */
  lemma ApiHit(c: Cache<Value>, md5: string -> string, name: string, ttl: int, args: seq<Value>,
               kwargs: seq<Named<Value>>, now: int, doneAt: int, call: Outcome, i: nat)
    requires Valid(c) && i < |c.entries| && !Expired(c.entries[i], now) && c.entries[i].value != VNone
    requires "self" !in NameSet(kwargs)
    requires DeriveKey(md5, [VStr(name)] + args, kwargs) == Some(c.entries[i].key)
    ensures ApiStep(c, md5, name, ttl, args, kwargs, now, doneAt, call)
      == Step(c.(entries := c.entries[..i] + c.entries[i + 1..] + [c.entries[i]]), Returned(c.entries[i].value), false)
  {
    GetHit(c, i, now);
  }

  /** A stored response is found again for `ttl` seconds after the handler
      finished, unless it is `None`: a stored `None` reads as a miss, so the
      handler runs again although its result sits in the cache. */
  lemma ApiSecondCall(c: Cache<Value>, md5: string -> string, name: string, ttl: int, args: seq<Value>,
                      kwargs: seq<Named<Value>>, now: int, doneAt: int, v: Value,
                      later: int, doneLater: int, call': Outcome)
    requires Valid(c) && WithinBound(c) && c.maxSize >= 1
    requires "self" !in NameSet(kwargs) && "ttl" !in NameSet(kwargs) && "value" !in NameSet(kwargs)
    requires CallRenderable([VStr(name)] + args, kwargs)
    requires !IsHit(Get(c, DeriveKey(md5, [VStr(name)] + args, kwargs).value, now))
    requires ApiCacheable(v) && later <= doneAt + ttl
    ensures var first := ApiStep(c, md5, name, ttl, args, kwargs, now, doneAt, Returned(v));
      var second := ApiStep(first.cache, md5, name, ttl, args, kwargs, later, doneLater, call');
      && first.invoked && first.outcome == Returned(v)
      && Get(first.cache, DeriveKey(md5, [VStr(name)] + args, kwargs).value, later).found == Some(v)
      && (v != VNone ==> second.outcome == Returned(v) && !second.invoked)
      && (v == VNone ==> second.invoked)
  {
    var key := DeriveKey(md5, [VStr(name)] + args, kwargs).value;
    ApiMiss(c, md5, name, ttl, args, kwargs, now, doneAt, Returned(v), key);
    GetKeepsInvariant(c, key, now);
    SetThenGet(Get(c, key, now).cache, key, v, Some(ttl), doneAt, later);
  }
}
