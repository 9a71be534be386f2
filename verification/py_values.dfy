/** The Python values that reach the cache as call arguments and results,
    with the three things the cache does to them: `str()`, truthiness, and
    `json.dumps(v, sort_keys=True)` with its default separators and ASCII
    escaping. */
module PyValues {
  import opened PyStrings
  import opened NameSort

  /** A Python value. A float is carried as the text Python's `repr` gives
      it ("1.5", "inf", "nan"); an object of any other class as the text its
      `str` gives it. Dict keys are strings. */
  datatype Value =
    | VNone
    | VBool(b: bool)
    | VInt(i: int)
    | VFloat(repr: string)
    | VStr(s: string)
    | VList(elems: seq<Value>)
    | VDict(items: seq<Named<Value>>)
    | VOther(text: string)

  /** Python's `bool(v)`; an object of another class is truthy, as objects
      without `__bool__` or `__len__` are. */
  predicate Truthy(v: Value)
  {
    match v
    case VNone => false
    case VBool(b) => b
    case VInt(i) => i != 0
    case VFloat(r) => r != "0.0" && r != "-0.0"
    case VStr(s) => |s| > 0
    case VList(a) => |a| > 0
    case VDict(d) => |d| > 0
    case VOther(_) => true
  }

  /** `isinstance(v, dict) and key in v`. */
  predicate DictHasKey(v: Value, key: string)
  {
    v.VDict? && key in NameSet(v.items)
  }

  /** Python's `str(v)` (equally, `f"{v}"`) for the values the key derivation
      stringifies: everything but lists and dicts, which go through JSON. */
  function Str(v: Value): string
    requires !v.VList? && !v.VDict?
  {
    match v
    case VNone => "None"
    case VBool(b) => if b then "True" else "False"
    case VInt(i) => IntToDecimal(i)
    case VFloat(r) => r
    case VStr(s) => s
    case VOther(t) => t
  }

  /** Whether `json.dumps` accepts the value: it raises `TypeError` on any
      object that is not None, bool, int, float, str, list or dict. */
  predicate JsonSerializable(v: Value)
  {
    match v
    case VList(a) => forall i :: 0 <= i < |a| ==> JsonSerializable(a[i])
    case VDict(d) => forall i :: 0 <= i < |d| ==> JsonSerializable(d[i].value)
    case VOther(_) => false
    case _ => true
  }

  /** One character of a JSON string literal under `ensure_ascii=True`:
      the two-character escapes, printable ASCII as is, anything else as
      `\uXXXX` (a surrogate pair above the Basic Multilingual Plane). */
  function EscapeChar(c: char): string
  {
    var n := c as int;
    if c == '"' then "\\\""
    else if c == '\\' then "\\\\"
    else if c == '\n' then "\\n"
    else if c == '\r' then "\\r"
    else if c == '\t' then "\\t"
    else if n == 0x08 then "\\b"
    else if n == 0x0C then "\\f"
    else if 0x20 <= n <= 0x7E then [c]
    else if n < 0x1_0000 then "\\u" + Hex4(n)
    else
      var m := n - 0x1_0000;
      "\\u" + Hex4(0xD800 + m / 0x400) + "\\u" + Hex4(0xDC00 + m % 0x400)
  }

  function Escape(s: string): string
  {
    if s == [] then "" else EscapeChar(s[0]) + Escape(s[1..])
  }

  /** A JSON string literal for `s`. */
  function Quote(s: string): string
  {
    "\"" + Escape(s) + "\""
  }

  /** JSON text of a float: Python's `repr`, except for the three
      non-finite values, which `json.dumps` spells its own way. */
  function FloatJson(repr: string): string
  {
    if repr == "nan" then "NaN"
    else if repr == "inf" then "Infinity"
    else if repr == "-inf" then "-Infinity"
    else repr
  }

  /** `json.dumps(v, sort_keys=True)`. Dict members are rendered in
      ascending key order, with separators ", " and ": ". The function is
      total; on a value that is not `JsonSerializable` Python raises instead,
      and callers consult that predicate first. */
  function Dumps(v: Value): string
  {
    match v
    case VNone => "null"
    case VBool(b) => if b then "true" else "false"
    case VInt(i) => IntToDecimal(i)
    case VFloat(r) => FloatJson(r)
    case VStr(s) => Quote(s)
    case VList(a) => "[" + Join(", ", DumpList(a)) + "]"
    case VDict(d) => "{" + Join(", ", Members(SortByName(DumpItems(d)))) + "}"
    case VOther(t) => Quote(t)
  }

  function DumpList(a: seq<Value>): (r: seq<string>)
    ensures |r| == |a|
  {
    if a == [] then [] else [Dumps(a[0])] + DumpList(a[1..])
  }

  function DumpItems(d: seq<Named<Value>>): (r: seq<Named<string>>)
    ensures |r| == |d|
  {
    if d == [] then [] else [Named(d[0].name, Dumps(d[0].value))] + DumpItems(d[1..])
  }

  /** `"name": value` for every rendered dict item, in the given order. */
  function Members(ps: seq<Named<string>>): (r: seq<string>)
    ensures |r| == |ps|
  {
    if ps == [] then [] else [Quote(ps[0].name) + ": " + ps[0].value] + Members(ps[1..])
  }

  /** The canonical form of a value: every dict, at every depth, with its
      items in ascending key order. Two values with the same canonical form
      differ at most in the insertion order of their dicts. */
  function Normalize(v: Value): Value
  {
    match v
    case VList(a) => VList(NormalizeList(a))
    case VDict(d) => VDict(SortByName(NormalizeItems(d)))
    case _ => v
  }

  function NormalizeList(a: seq<Value>): (r: seq<Value>)
    ensures |r| == |a|
    ensures forall i :: 0 <= i < |a| ==> r[i] == Normalize(a[i])
  {
    if a == [] then [] else [Normalize(a[0])] + NormalizeList(a[1..])
  }

  function NormalizeItems(d: seq<Named<Value>>): (r: seq<Named<Value>>)
    ensures |r| == |d|
  {
    if d == [] then [] else [Named(d[0].name, Normalize(d[0].value))] + NormalizeItems(d[1..])
  }

  /** Values that differ only in the insertion order of their dicts. */
  predicate SameUpToKeyOrder(v: Value, w: Value)
  {
    Normalize(v) == Normalize(w)
  }

  lemma {:induction false} DumpItemsMapsDumps(d: seq<Named<Value>>)
    ensures DumpItems(d) == MapValues(Dumps, d)
  {
    if d != [] {
      DumpItemsMapsDumps(d[1..]);
    }
  }

  lemma {:induction false} NormalizeItemsMapsNormalize(d: seq<Named<Value>>)
    ensures NormalizeItems(d) == MapValues(Normalize, d)
  {
    if d != [] {
      NormalizeItemsMapsNormalize(d[1..]);
    }
  }

  /** Rendering the canonical form gives the same JSON text: `sort_keys=True`
      already renders every dict in key order. */
  lemma {:induction false} DumpsNormalize(v: Value)
    ensures Dumps(Normalize(v)) == Dumps(v)
    decreases v, 1
  {
    match v
    case VList(a) =>
      DumpListNormalize(a);
    case VDict(d) =>
      var nd := NormalizeItems(d);
      DumpItemsNormalize(d);
      DumpItemsMapsDumps(nd);
      DumpItemsMapsDumps(SortByName(nd));
      SortMapValues(Dumps, nd);
      SortIdempotent(DumpItems(d));
    case _ =>
  }

  lemma {:induction false} DumpListNormalize(a: seq<Value>)
    ensures DumpList(NormalizeList(a)) == DumpList(a)
    decreases a, 0
  {
    if a != [] {
      DumpsNormalize(a[0]);
      DumpListNormalize(a[1..]);
    }
  }

  lemma {:induction false} DumpItemsNormalize(d: seq<Named<Value>>)
    ensures DumpItems(NormalizeItems(d)) == DumpItems(d)
    decreases d, 0
  {
    if d != [] {
      DumpsNormalize(d[0].value);
      DumpItemsNormalize(d[1..]);
    }
  }

  /** `json.dumps(..., sort_keys=True)` cannot tell apart values that differ
      only in the insertion order of their dicts. */
  lemma DumpsIgnoresKeyOrder(v: Value, w: Value)
    requires SameUpToKeyOrder(v, w)
    ensures Dumps(v) == Dumps(w)
  {
    DumpsNormalize(v);
    DumpsNormalize(w);
  }

  /** Reordering the items of a dict gives a value with the same canonical form. */
  lemma ReorderedDictSameUpToKeyOrder(d: seq<Named<Value>>, e: seq<Named<Value>>)
    requires DistinctNames(d) && DistinctNames(e)
    requires multiset(d) == multiset(e)
    ensures SameUpToKeyOrder(VDict(d), VDict(e))
  {
    SortIgnoresOrder(d, e);
    NormalizeItemsMapsNormalize(d);
    NormalizeItemsMapsNormalize(e);
    SortMapValues(Normalize, d);
    SortMapValues(Normalize, e);
  }

  /** `json.dumps` accepts a value exactly when it accepts its canonical form. */
  lemma {:induction false} SerializableNormalize(v: Value)
    ensures JsonSerializable(Normalize(v)) == JsonSerializable(v)
    decreases v
  {
    match v
    case VList(a) =>
      forall i | 0 <= i < |a| ensures JsonSerializable(Normalize(a[i])) == JsonSerializable(a[i]) {
        SerializableNormalize(a[i]);
      }
    case VDict(d) =>
      forall i | 0 <= i < |d| ensures JsonSerializable(Normalize(d[i].value)) == JsonSerializable(d[i].value) {
        SerializableNormalize(d[i].value);
      }
      var nd := NormalizeItems(d);
      NormalizeItemsMapsNormalize(d);
      SortPermutes(nd);
      if JsonSerializable(v) {
        PermutationKeepsAll(JsonSerializable, nd, SortByName(nd));
      }
      if JsonSerializable(Normalize(v)) {
        PermutationKeepsAll(JsonSerializable, SortByName(nd), nd);
      }
    case _ =>
  }
}
