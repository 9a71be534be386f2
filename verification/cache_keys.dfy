/** Cache-key derivation (`LRUCache._generate_key`): every positional
    argument, then every keyword argument in name order, is rendered to text;
    the texts are joined with "|" and the join is hashed with MD5. MD5 is a
    parameter `md5` here; every fact below holds for any choice of it, and the
    facts about distinctness are stated on the joined string before hashing. */
module CacheKeys {
  import opened Wrappers
  import opened PyStrings
  import opened NameSort
  import opened PyValues

  /** Whether rendering `v` succeeds: lists and dicts go through
      `json.dumps`, which raises on content it cannot serialize; everything
      else goes through `str`, which is taken to succeed (CPython's limit on
      converting ints of more than 4300 digits is not modelled). */
  predicate Renderable(v: Value)
  {
    (v.VList? || v.VDict?) ==> JsonSerializable(v)
  }

  /** The text one argument value contributes to the key. */
  function RenderText(v: Value): string
  {
    if v.VList? || v.VDict? then Dumps(v) else Str(v)
  }

  function PositionalParts(args: seq<Value>): (r: seq<string>)
    ensures |r| == |args|
    ensures forall i :: 0 <= i < |args| ==> r[i] == RenderText(args[i])
  {
    if args == [] then [] else [RenderText(args[0])] + PositionalParts(args[1..])
  }

  /** `f"{name}:{rendered value}"` for one keyword argument. */
  function KeywordPart(kw: Named<Value>): string
  {
    kw.name + ":" + RenderText(kw.value)
  }

  function KeywordParts(kws: seq<Named<Value>>): (r: seq<string>)
    ensures |r| == |kws|
  {
    seq(|kws|, i requires 0 <= i < |kws| => KeywordPart(kws[i]))
  }

  /** `key_parts`: the positional parts in call order, then the keyword parts
      in ascending name order. */
  function Parts(args: seq<Value>, kwargs: seq<Named<Value>>): seq<string>
  {
    PositionalParts(args) + KeywordParts(SortByName(kwargs))
  }

  predicate CallRenderable(args: seq<Value>, kwargs: seq<Named<Value>>)
  {
    && (forall i :: 0 <= i < |args| ==> Renderable(args[i]))
    && (forall i :: 0 <= i < |kwargs| ==> Renderable(kwargs[i].value))
  }

  /** `"|".join(key_parts)`, or None when rendering an argument raises. */
  function KeyString(args: seq<Value>, kwargs: seq<Named<Value>>): Option<string>
  {
    if CallRenderable(args, kwargs) then Some(Join("|", Parts(args, kwargs))) else None
  }

  /** `_generate_key(*args, **kwargs)`: the MD5 digest of the key string, or
      None when rendering an argument raises `TypeError`. */
  function DeriveKey(md5: string -> string, args: seq<Value>, kwargs: seq<Named<Value>>): (r: Option<string>)
    ensures r.Some? <==> CallRenderable(args, kwargs)
    ensures r.Some? ==> r.value == md5(KeyString(args, kwargs).value)
  {
    match KeyString(args, kwargs)
    case Some(s) => Some(md5(s))
    case None => None
  }

  lemma RenderCanonical(v: Value)
    ensures RenderText(Normalize(v)) == RenderText(v)
    ensures Renderable(Normalize(v)) == Renderable(v)
  {
    DumpsNormalize(v);
    SerializableNormalize(v);
  }

  /** The key string depends on the arguments only through their canonical
      forms: the insertion order of a dict argument, at any depth, is never
      part of the key. */
  lemma KeyStringCanonical(args: seq<Value>, kwargs: seq<Named<Value>>)
    ensures KeyString(args, kwargs) == KeyString(NormalizeList(args), MapValues(Normalize, kwargs))
  {
    var nargs := NormalizeList(args);
    var nkw := MapValues(Normalize, kwargs);
    forall i | 0 <= i < |args| ensures RenderText(nargs[i]) == RenderText(args[i])
      && Renderable(nargs[i]) == Renderable(args[i]) {
      RenderCanonical(args[i]);
    }
    forall i | 0 <= i < |kwargs| ensures RenderText(nkw[i].value) == RenderText(kwargs[i].value)
      && Renderable(nkw[i].value) == Renderable(kwargs[i].value) {
      RenderCanonical(kwargs[i].value);
    }
    assert PositionalParts(nargs) == PositionalParts(args);
    var sorted := SortByName(kwargs);
    SortMapValues(Normalize, kwargs);
    var nsorted := MapValues(Normalize, sorted);
    forall i | 0 <= i < |sorted| ensures KeywordParts(nsorted)[i] == KeywordParts(sorted)[i] {
      RenderCanonical(sorted[i].value);
    }
    assert KeywordParts(SortByName(nkw)) == KeywordParts(sorted);
  }

  /** Argument lists that differ only in the insertion order of their dict
      values, at any depth, derive the same key. */
  lemma KeyIgnoresDictOrder(md5: string -> string, args: seq<Value>, args': seq<Value>,
                            kwargs: seq<Named<Value>>, kwargs': seq<Named<Value>>)
    requires |args| == |args'| && |kwargs| == |kwargs'|
    requires forall i :: 0 <= i < |args| ==> SameUpToKeyOrder(args[i], args'[i])
    requires forall i :: 0 <= i < |kwargs| ==>
      kwargs[i].name == kwargs'[i].name && SameUpToKeyOrder(kwargs[i].value, kwargs'[i].value)
    ensures DeriveKey(md5, args, kwargs) == DeriveKey(md5, args', kwargs')
  {
    KeyStringCanonical(args, kwargs);
    KeyStringCanonical(args', kwargs');
    assert NormalizeList(args) == NormalizeList(args');
    assert MapValues(Normalize, kwargs) == MapValues(Normalize, kwargs');
  }

  /** `sorted(kwargs.items())`: the order in which keyword arguments were
      passed is not part of the key. */
  lemma KeyIgnoresKeywordOrder(md5: string -> string, args: seq<Value>,
                               kwargs: seq<Named<Value>>, kwargs': seq<Named<Value>>)
    requires DistinctNames(kwargs) && DistinctNames(kwargs')
    requires multiset(kwargs) == multiset(kwargs')
    ensures DeriveKey(md5, args, kwargs) == DeriveKey(md5, args, kwargs')
  {
    SortIgnoresOrder(kwargs, kwargs');
    if forall i :: 0 <= i < |kwargs| ==> Renderable(kwargs[i].value) {
      PermutationKeepsAll(Renderable, kwargs, kwargs');
    }
    if forall i :: 0 <= i < |kwargs'| ==> Renderable(kwargs'[i].value) {
      PermutationKeepsAll(Renderable, kwargs', kwargs);
    }
  }

  lemma AppendFreshName(kwargs: seq<Named<Value>>, x: Named<Value>)
    requires DistinctNames(kwargs) && x.name !in NameSet(kwargs)
    ensures DistinctNames(kwargs + [x]) && DistinctNames([x] + kwargs)
  {
    forall i | 0 <= i < |kwargs| ensures kwargs[i].name != x.name {
      assert kwargs[i].name in NameSet(kwargs);
    }
  }

  /** Where an extra keyword argument with a fresh name lands among the
      sorted ones: sorting `kwargs + [x]` inserts `x` into the sorted `kwargs`. */
  lemma SortWithExtra(kwargs: seq<Named<Value>>, x: Named<Value>) returns (k: nat)
    requires DistinctNames(kwargs) && x.name !in NameSet(kwargs)
    ensures k <= |kwargs|
    ensures SortByName(kwargs + [x]) == SortByName(kwargs)[..k] + [x] + SortByName(kwargs)[k..]
  {
    AppendFreshName(kwargs, x);
    assert multiset(kwargs + [x]) == multiset([x] + kwargs);
    SortIgnoresOrder(kwargs + [x], [x] + kwargs);
    assert ([x] + kwargs)[1..] == kwargs;
    k := InsertPosition(x, SortByName(kwargs));
  }

  /** One more non-empty part makes the join strictly longer. */
  lemma JoinGrows(pre: seq<string>, extra: string, post: seq<string>)
    requires |extra| > 0
    ensures |Join("|", pre + post)| < |Join("|", pre + [extra] + post)|
  {
    SumLengthsAppend(pre, post);
    SumLengthsAppend(pre, [extra] + post);
    SumLengthsAppend([extra], post);
    assert pre + [extra] + post == pre + ([extra] + post);
    assert SumLengths([extra]) == |extra|;
    JoinLength("|", pre + post);
    JoinLength("|", pre + [extra] + post);
  }

  lemma KeywordPartsAppend(a: seq<Named<Value>>, b: seq<Named<Value>>)
    ensures KeywordParts(a + b) == KeywordParts(a) + KeywordParts(b)
  {
  }

  lemma KeywordPartsSplit(s: seq<Named<Value>>, x: Named<Value>, k: nat)
    requires k <= |s|
    ensures KeywordParts(s) == KeywordParts(s[..k]) + KeywordParts(s[k..])
    ensures KeywordParts(s[..k] + [x] + s[k..]) == KeywordParts(s[..k]) + [KeywordPart(x)] + KeywordParts(s[k..])
  {
    assert s == s[..k] + s[k..];
    KeywordPartsAppend(s[..k], s[k..]);
    KeywordPartsAppend(s[..k] + [x], s[k..]);
    KeywordPartsAppend(s[..k], [x]);
    assert KeywordParts([x]) == [KeywordPart(x)];
  }

  /** Passing one more keyword argument, whatever its value, always changes
      the key string: the extra part makes the join strictly longer. */
  lemma ExtraKeywordChangesKey(args: seq<Value>, kwargs: seq<Named<Value>>, name: string, v: Value)
    requires DistinctNames(kwargs) && name !in NameSet(kwargs)
    requires CallRenderable(args, kwargs + [Named(name, v)])
    ensures KeyString(args, kwargs + [Named(name, v)]).Some?
    ensures KeyString(args, kwargs).Some?
    ensures KeyString(args, kwargs + [Named(name, v)]) != KeyString(args, kwargs)
  {
    var x := Named(name, v);
    var more := kwargs + [x];
    assert CallRenderable(args, kwargs) by {
      forall i | 0 <= i < |kwargs| ensures Renderable(kwargs[i].value) {
        assert more[i] == kwargs[i];
      }
    }
    var k := SortWithExtra(kwargs, x);
    var s := SortByName(kwargs);
    KeywordPartsSplit(s, x, k);
    var pos := PositionalParts(args);
    var before := pos + KeywordParts(s[..k]);
    var after := KeywordParts(s[k..]);
    assert Parts(args, kwargs) == before + after;
    assert Parts(args, more) == before + [KeywordPart(x)] + after;
    JoinGrows(before, KeywordPart(x), after);
  }

  /** Passing `force_analyze=False` derives a different key string from
      omitting the flag, although both calls mean the same thing. */
  lemma ExplicitFalseFlagChangesKey(args: seq<Value>, kwargs: seq<Named<Value>>)
    requires DistinctNames(kwargs) && "force_analyze" !in NameSet(kwargs)
    requires CallRenderable(args, kwargs)
    ensures KeyString(args, kwargs + [Named("force_analyze", VBool(false))]) != KeyString(args, kwargs)
  {
    var more := kwargs + [Named("force_analyze", VBool(false))];
    assert CallRenderable(args, more) by {
      forall i | 0 <= i < |more| ensures Renderable(more[i].value) {
        if i < |kwargs| { assert more[i] == kwargs[i]; }
      }
    }
    ExtraKeywordChangesKey(args, kwargs, "force_analyze", VBool(false));
  }

  /** The derivation is not injective before hashing: a "|" inside a string
      argument imitates two arguments. */
  lemma SeparatorCollision(md5: string -> string)
    ensures DeriveKey(md5, [VStr("a|b")], []) == DeriveKey(md5, [VStr("a"), VStr("b")], [])
  {
    assert KeyString([VStr("a|b")], []) == Some("a|b");
    assert Parts([VStr("a"), VStr("b")], []) == ["a", "b"];
    assert Join("|", ["a", "b"]) == "a" + "|" + Join("|", ["b"]) == "a|b";
  }

  /** `str` conflates `1` with `"1"` and `True` with `"True"`. */
  lemma StrCollision(md5: string -> string)
    ensures DeriveKey(md5, [VInt(1)], []) == DeriveKey(md5, [VStr("1")], [])
    ensures DeriveKey(md5, [VBool(true)], []) == DeriveKey(md5, [VStr("True")], [])
  {
    assert IntToDecimal(1) == "1";
    assert Parts([VInt(1)], []) == ["1"] == Parts([VStr("1")], []);
    assert Parts([VBool(true)], []) == ["True"] == Parts([VStr("True")], []);
  }

  /** A positional "k:v" imitates the keyword argument `k="v"`. */
  lemma KeywordCollision(md5: string -> string)
    ensures DeriveKey(md5, [VStr("k:v")], []) == DeriveKey(md5, [], [Named("k", VStr("v"))])
  {
    var kw := [Named("k", VStr("v"))];
    assert SortByName(kw) == kw;
    assert KeywordPart(kw[0]) == "k:v";
    assert Parts([], kw) == ["k:v"] == Parts([VStr("k:v")], []);
  }
}
