# In-process result cache of the MatchLearn backend, in Dafny

This project models the result cache of the MatchLearn career-coaching
backend (`backend/cache.py`) and proves properties of that model. The cache
has three parts:

- **`LRUCache`**: an ordered map from a string key to an entry holding
  `value`, `expires_at` and `created_at`. Entries are kept in recency order,
  with the least recently used first. The map has a hard `max_size` and a
  `default_ttl`. Expiry is lazy in `get`; `cleanup` sweeps in bulk. `clear`
  and `size` complete the interface.
- **Key derivation** (`_generate_key`): each argument is rendered to text.
  Lists and dicts go through `json.dumps(..., sort_keys=True)`; every other
  value goes through `str`. Keyword arguments are rendered as `name:value`
  in name order. The parts are joined with `|` and hashed with MD5.
- **Two memoizing decorators** over the two global caches:
  - `cache_llm_result` for language-model calls. A truthy `force_analyze`
    bypasses the cache, and only dicts without an `"error"` key are stored.
  - `cache_api_response(ttl)` for API handlers. Keys lead with the
    handler's name, entries are stored for `ttl`, and everything except an
    error dict is stored.

Modules, leaf first:

| file | module | what it holds |
|---|---|---|
| `wrappers.dfy` | `Wrappers` | `Option` |
| `py_strings.dfy` | `PyStrings` | Python's `str` ordering (a strict total order), `str(int)`, 4-digit hex, `sep.join` and its length |
| `name_sort.dfy` | `NameSort` | `Named` pairs (dict items, keyword arguments) and `sorted()` on them: a permutation, sorted, independent of input order |
| `py_values.dfy` | `PyValues` | Python values, truthiness, `json.dumps(sort_keys=True)` with ASCII escaping, and canonical forms |
| `cache_keys.dfy` | `CacheKeys` | `_generate_key` |
| `lru_cache.dfy` | `LruCache` | `LRUCache`: `get`, `set`, `clear`, `size`, `cleanup` |
| `memoize.dfy` | `Memoize` | the two global caches and the two decorators as step functions |

Modelling choices:

- The store is an immutable `Cache<V>`. It holds its entries as a sequence
  with distinct keys, in recency order, plus `maxSize` and `defaultTtl`.
  Operations return the new cache.
- Time is an integer parameter `now`. In `set`, the two clock readings
  become one. A memoizer step takes two times: `now` for the lookup and
  `doneAt` for the write-back, because the decorator awaits the wrapped
  call between the two.
- MD5 is a parameter `md5: string -> string`. Every key fact holds for every
  choice of it. Facts about keys differing are stated on the joined string
  before hashing.
- A decorator call is a step. It takes the cache, the call's positional and
  keyword arguments, and the outcome the wrapped function would have.
  It returns the new cache, what the caller receives, and whether the
  wrapped function ran.
- The force flag exists only in `cache_llm_result`.
- `cache_api_response` stores everything except a dict with `"error"`:
  scalars, strings, lists and `None` included.
- Python's argument binding is modelled where it changes the outcome:
  - A keyword argument named `self` makes `get` raise `TypeError`.
  - In `cache_llm_result`, a keyword argument named `value` makes the
    write-back raise, and one named `ttl` is taken as the TTL instead of
    being part of the key.
  - In `cache_api_response`, a keyword argument named `ttl` or `value`
    makes the write-back raise.

## Model

| member | source | states |
|---|---|---|
| LruCache.Create | backend/cache.py:17-27 | a new cache is empty, well formed, and within its bound when `max_size >= 0` |
| LruCache.Clear | backend/cache.py:92-94 | after `clear()` the size is 0, and the configuration is kept |
| LruCache.Get | backend/cache.py:52-68 | `get` keeps the configuration and finds something only for a stored key |
| LruCache.GetMissing | backend/cache.py:54-57 | a key that is not stored reads as a miss and leaves the cache unchanged |
| LruCache.GetExpired | backend/cache.py:59-64 | an entry with `expires_at < now` reads as a miss; exactly that entry is deleted; the others keep their order |
| LruCache.GetHit | backend/cache.py:59-68 | a live entry, including one expiring exactly now, returns its value and moves to the most recently used end; the others keep their order and the key set is unchanged |
| LruCache.Set | backend/cache.py:70-90 | `set` keeps `max_size` and `default_ttl`; what it does to the entries is stated by the lemmas below |
| LruCache.SetReplaces | backend/cache.py:78-86 | `set` on a stored key replaces its entry, moves it to the back, keeps the others in order, and leaves the size unchanged |
| LruCache.SetInserts | backend/cache.py:78-89 | `set` on a new key while there is room appends it |
| LruCache.SetEvicts | backend/cache.py:78-90 | `set` on a new key in a full cache evicts exactly the front entry, expired or not, and keeps the rest in order |
| LruCache.SetBound | backend/cache.py:70-90 | after `set`, `size() <= max_size` and keys stay distinct; with `max_size >= 1` the key just set is the most recent entry, holds the value, and expires at `now + ttl` for an explicit ttl (0 included) or `now + default_ttl` for `None` |
| LruCache.SetThenGet | backend/cache.py:56-90 | a `get` after a `set` of the same key returns the value exactly until `now + ttl` inclusive, and misses after that |
| LruCache.Cleanup | backend/cache.py:100-116 | the two-loop sweep (collect expired keys, then delete each) leaves exactly the live entries in order and returns the number of expired entries, which is the drop in size; the swept cache is well formed, stays within its bound, and holds nothing expired at `now`, so a second `cleanup()` at the same time returns 0 |
| LruCache.LiveEntriesSpec | backend/cache.py:106-116 | the survivors are exactly the unexpired entries; a second sweep at the same time removes nothing |
| NameSort.SortIgnoresOrder | backend/cache.py:43 | `sorted(...)` over pairs with distinct names does not depend on their input order |
| PyValues.DumpsIgnoresKeyOrder | backend/cache.py:37-38 | `json.dumps(sort_keys=True)` gives the same text for values that differ only in dict insertion order, at any depth |
| PyValues.ReorderedDictSameUpToKeyOrder | backend/cache.py:37-38 | reordering a dict's items does not change its canonical form |
| CacheKeys.RenderCanonical | backend/cache.py:34-46 | how one argument or keyword value is rendered (`json.dumps` for a list or dict, `str` otherwise), and whether it can be, depend only on its canonical form |
| CacheKeys.KeyStringCanonical | backend/cache.py:33-49 | the key string depends only on the canonical forms of the arguments |
| CacheKeys.KeyIgnoresDictOrder | backend/cache.py:37-46 | arguments that differ only in dict insertion order derive the same key |
| CacheKeys.KeyIgnoresKeywordOrder | backend/cache.py:42-46 | the order keyword arguments were passed in is not part of the key |
| CacheKeys.ExtraKeywordChangesKey | backend/cache.py:42-49 | one more keyword argument, of any value, always changes the pre-hash key string |
| CacheKeys.ExplicitFalseFlagChangesKey | backend/cache.py:43-49 | `force_analyze=False` derives a different key string from omitting the flag |
| CacheKeys.SeparatorCollision | backend/cache.py:49 | `("a\|b",)` and `("a", "b")` derive the same key |
| CacheKeys.StrCollision | backend/cache.py:35-36 | `1` and `"1"`, and `True` and `"True"`, derive the same key |
| CacheKeys.KeywordCollision | backend/cache.py:43-49 | a positional `"k:v"` derives the same key as the keyword argument `k="v"` |
| Memoize.Globals | backend/cache.py:120-121 | the two global caches start empty with 500 entries for 86400 s and 1000 entries for 300 s |
| Memoize.LlmStep | backend/cache.py:134-153 | a call that returns a value without running the function returns exactly the live stored value other than `None` that the lookup found, and leaves the cache as that `get` left it (the entry made most recent); without a truthy `force_analyze`, a lookup that raises (a `self` keyword argument, or an argument `json.dumps` rejects) gives `TypeError` without running the function and leaves the cache untouched |
| Memoize.LlmForceBypass | backend/cache.py:136-137 | a truthy `force_analyze` runs the function and leaves the cache untouched |
| Memoize.LlmHit | backend/cache.py:139-143 | a live, non-`None` stored result is returned and made most recent; the function does not run |
| Memoize.LlmMiss | backend/cache.py:145-153 | on a miss the function runs and its outcome is passed on; the result is stored exactly when it is a dict without `"error"` |
| Memoize.LlmSecondCallHits | backend/cache.py:139-153 | after a stored miss, the same call within the default TTL returns the result without running the function |
| Memoize.LlmUncacheableRerun | backend/cache.py:145-153 | after an uncacheable result (an error dict, or any non-dict), the same call runs the function again |
| Memoize.LlmTtlKeywordNeverHits | backend/cache.py:140-150 | with a `ttl=60` keyword argument, the result is stored but the same call misses and runs again |
| Memoize.LlmValueKeywordRaises | backend/cache.py:145-153 | on a miss with a `value=` keyword argument the function runs, a result that would be stored reaches the caller as `TypeError`, and nothing is stored |
| Memoize.LlmTtlKeywordStoresElsewhere | backend/cache.py:140-150 | on a miss with a `ttl=` keyword argument the function runs and a cacheable result is stored under the key of the call without `ttl`, for the given TTL; a `ttl` `set` cannot use becomes `TypeError` |
| Memoize.LlmIntendedSecondCallHits | backend/cache.py:139-153 | with the write-back using the lookup key, a stored result is found again whatever the keyword arguments are called |
| Memoize.LlmIntendedAgrees | backend/cache.py:145-153 | the corrected write-back agrees with the code on every call without a `ttl` or `value` keyword argument |
| Memoize.ApiStep | backend/cache.py:167-182 | a call that returns a value without running the handler returns exactly the live stored value other than `None` that the name-qualified lookup found, and leaves the cache as that `get` left it (the entry made most recent); a lookup that raises (a `self` keyword argument, or an argument `json.dumps` rejects) gives `TypeError` without running the handler and leaves the cache untouched |
| Memoize.ApiReservedKeywordRaises | backend/cache.py:174-182 | on a miss with a `ttl=` or `value=` keyword argument the handler runs, a result that would be stored reaches the caller as `TypeError`, and nothing is stored |
| Memoize.ApiHit | backend/cache.py:168-172 | a live, non-`None` stored response is returned without running the handler |
| Memoize.ApiMiss | backend/cache.py:174-182 | on a miss the handler runs; every result except a dict with `"error"` is stored under the name-qualified key for the decorator's `ttl` |
| Memoize.ApiSecondCall | backend/cache.py:168-182 | a stored response is found for `ttl` seconds; a stored `None` reads as a miss, so the handler runs again |

`size()` (backend/cache.py:96-98) is `LruCache.Size`, the number of stored
entries, expired ones included. The facts above that mention `Size` state
what it returns.

## Findings

| source | as written | input that shows it | evidently intended | confidence | as-written member | corrected member |
|---|---|---|---|---|---|---|
| backend/cache.py:140-150 | the lookup key includes every keyword argument, but `llm_cache.set(result, *args, **kwargs)` binds a keyword argument named `ttl` to `set`'s own `ttl` parameter; the result is stored under a key without it, for that TTL | calling a decorated function as `f("resume", ttl=60)` twice: both calls run `f` | store the result under the key the lookup used, for the default TTL | low: no caller in the repository passes `ttl`; not executed | Memoize.LlmTtlKeywordNeverHits | Memoize.LlmIntendedSecondCallHits |

`Memoize.LlmStep` models the code as written. `Memoize.LlmStepIntended` is
the corrected step. A keyword argument named `value` is the same defect with
a different outcome: as written, the write-back raises `TypeError`
(`Memoize.LlmValueKeywordRaises`). The corrected step stores the result
instead.

## Left out

- MD5 is a parameter of the model, not an implementation. Hash collisions are possible only through that parameter.
- The clock is not modelled; times are parameters. The two readings in `set` are one, and `created_at` is stored but never read.
- Time is in whole seconds. `datetime.now()` and `timedelta(seconds=ttl)` are microsecond-precise, so Python can see an entry as expired where the model, with both readings in the same second, sees a hit. For example, an entry set at 10.3 s with `ttl=0` and read at 10.7 s is a miss in Python.
- Aliasing is not modelled. `set` stores the result object itself and a hit returns that same object, so a caller that mutates a returned dict changes the cached entry. A `Value` is immutable and cannot express this.
- Circular values are not modelled. A list or dict that contains itself makes `json.dumps` raise `ValueError` inside `_generate_key`. A `Value` is a finite tree, so that error path cannot be expressed.
- async/await and concurrency are left out. Each step is atomic, so two concurrent misses on one key are not modelled.
- The `print` debug lines are not modelled.
- Floats are carried as the text of Python's `repr`; shortest-repr float formatting is not modelled.
- Truthy: an object of a class with its own `__bool__` or `__len__` is modelled as truthy.
- Dict keys are strings only. `json.dumps` converting int, float, bool and `None` keys, and raising on mixed key types under `sort_keys`, are not modelled.
- Tuples and other containers are `VOther` values, rendered by their `str`. Nested inside a list or dict they make `json.dumps` raise in the model. Python renders a nested tuple as a list.
- TtlArgument: a float-valued `ttl` keyword argument reaching `llm_cache.set` is treated as raising `TypeError`. Python would accept fractional seconds.
- `OverflowError` from `datetime + timedelta` with an out-of-range TTL is not modelled; time is unbounded.
- Exceptions the wrapped function raises are an input (`CalleeError`) and pass through unchanged. Their contents are not modelled.
- LlmUncacheableRerun: states that the second call runs the function, not what that call returns. The return depends on the keyword-argument binding covered by `LlmMiss`.
- LruCache.Set: its own contract states only that the configuration is kept. Its effect on the entries is in `SetReplaces`, `SetInserts`, `SetEvicts`, `SetBound` and `SetThenGet`.
- LlmMiss: requires no keyword argument called `ttl` or `value`. Those calls are covered by `LlmTtlKeywordStoresElsewhere` and `LlmValueKeywordRaises`.
- ApiMiss: requires no keyword argument called `ttl` or `value`. Those calls are covered by `ApiReservedKeywordRaises`.
- Default arguments are not modelled: `Create` takes `max_size` and `default_ttl` explicitly, where Python defaults them to 1000 and 3600. `ApiStep` takes the decorator's `ttl` explicitly, where Python defaults it to 300.
- The `ValueError` CPython (3.10.7 and later) raises when `str`, an f-string or `json.dumps` converts an int of more than 4300 digits is not modelled: `str(int)` renders every `VInt`, so that error path of key derivation cannot be expressed.
- The `UnicodeEncodeError` that `key_string.encode()` raises for a lone surrogate in a string argument or keyword name cannot be expressed: a Dafny `char` is a Unicode scalar value and cannot hold a surrogate.
- LruCache.Get: its own contract is weak. The full behaviour is in `GetMissing`, `GetExpired` and `GetHit`.
- HTTP route handlers, the database, the language-model client, PDF parsing, prompts and scripts are not part of this model.
