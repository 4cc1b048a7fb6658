/**
 The part of Python's json module that the codecs use: `dumps(..., separators=(",", ":"),
 sort_keys=True)` with either setting of `ensure_ascii`, and `loads` (RFC 8259, sections 4, 6 and 7).
 */
module Json {
  import opened Basics
  import opened Digits

  /** The dictionary keys that `dumps` accepts, floats aside. */
  datatype Key = StrKey(text: Text) | IntKey(number: int) | BoolKey(flag: bool) | NoneKey

  /** A Python value. A float is kept as its lexeme and is never printed. */
  datatype Value =
    | Null
    | Bool(flag: bool)
    | Int(number: int)
    | Float(lexeme: Text)
    | Str(text: Text)
    | List(items: seq<Value>)
    | Tuple(items: seq<Value>)
    | Dict(entries: map<Key, Value>)

  /** JSON-normal: what `loads` can return, without floats and lone surrogates. */
  predicate Normal(v: Value) {
    match v
    case Null => true
    case Bool(_) => true
    case Int(_) => true
    case Float(_) => false
    case Str(t) => ScalarText(t)
    case List(vs) => forall i | 0 <= i < |vs| :: Normal(vs[i])
    case Tuple(_) => false
    case Dict(m) => forall k | k in m :: k.StrKey? && ScalarText(k.text) && Normal(m[k])
  }

  /** What `dumps` and a strict encoding print, floats aside: see `JsonImage.EncodedExactlyWhenEncodable`. */
  predicate Encodable(v: Value) {
    match v
    case Null => true
    case Bool(_) => true
    case Int(_) => true
    case Float(_) => false
    case Str(t) => ScalarText(t)
    case List(vs) => forall i | 0 <= i < |vs| :: Encodable(vs[i])
    case Tuple(vs) => forall i | 0 <= i < |vs| :: Encodable(vs[i])
    case Dict(m) => Comparable(m.Keys) && forall k | k in m :: ScalarText(KeyText(k)) && Encodable(m[k])
  }

  /** The key that `loads` returns for a printed key. */
  function PrintedKey(k: Key): Key {
    StrKey(KeyText(k))
  }

  function PrintedKeys(m: map<Key, Value>): set<Key> {
    set k | k in m :: PrintedKey(k)
  }

  ghost function OriginalKey(m: map<Key, Value>, printed: Key): (k: Key)
    requires printed in PrintedKeys(m)
    ensures k in m && PrintedKey(k) == printed
  {
    var k :| k in m && PrintedKey(k) == printed;
    k
  }

  /** What `loads` makes of a printed value: keys become their printed text, and tuples become lists. */
  ghost function Reread(v: Value): Value {
    match v
    case List(vs) => List(RereadItems(vs))
    case Tuple(vs) => List(RereadItems(vs))
    case Dict(m) => Dict(map p | p in PrintedKeys(m) :: Reread(m[OriginalKey(m, p)]))
    case _ => v
  }

  ghost function RereadItems(vs: seq<Value>): (r: seq<Value>)
    ensures |r| == |vs|
    ensures forall i | 0 <= i < |r| :: r[i] == Reread(vs[i])
  {
    if vs == [] then [] else [Reread(vs[0])] + RereadItems(vs[1..])
  }

  // ---------- characters ----------

  const QUOTE: CodePoint := 34
  const COMMA: CodePoint := 44
  const MINUS: CodePoint := 45
  const DOT: CodePoint := 46
  const COLON: CodePoint := 58
  const LBRACKET: CodePoint := 91
  const BACKSLASH: CodePoint := 92
  const RBRACKET: CodePoint := 93
  const LOWER_U: CodePoint := 117
  const LBRACE: CodePoint := 123
  const RBRACE: CodePoint := 125

  predicate Whitespace(c: CodePoint) {
    c == 32 || c == 9 || c == 10 || c == 13
  }

  // ---------- key order ----------

  /** Python's `<=` on strings. */
  predicate TextLe(a: Text, b: Text) {
    a == [] || (b != [] && (a[0] < b[0] || (a[0] == b[0] && TextLe(a[1..], b[1..]))))
  }

  /** Python's `<=` on keys of comparable types. `True` and 1 are one key in Python, so their tie never matters. */
  predicate KeyLe(a: Key, b: Key) {
    match (a, b)
    case (StrKey(s), StrKey(t)) => TextLe(s, t)
    case (IntKey(i), IntKey(j)) => i <= j
    case (IntKey(i), BoolKey(c)) => i <= (if c then 1 else 0)
    case (BoolKey(c), IntKey(i)) => (if c then 1 else 0) < i
    case (BoolKey(c), BoolKey(d)) => c ==> d
    case (NoneKey, NoneKey) => true
    case _ => false
  }

  /** `sorted` compares every pair without raising TypeError. */
  predicate Comparable(keys: set<Key>) {
    forall a, b | a in keys && b in keys :: KeyLe(a, b) || KeyLe(b, a)
  }

  lemma {:induction false} TextLeTotal(a: Text, b: Text)
    ensures TextLe(a, b) || TextLe(b, a)
  {
    if a != [] && b != [] && a[0] == b[0] {
      TextLeTotal(a[1..], b[1..]);
    }
  }

  lemma {:induction false} TextLeAntisymmetric(a: Text, b: Text)
    requires TextLe(a, b) && TextLe(b, a)
    ensures a == b
  {
    if a != [] && b != [] {
      TextLeAntisymmetric(a[1..], b[1..]);
      assert a == [a[0]] + a[1..] && b == [b[0]] + b[1..];
    }
  }

  lemma {:induction false} TextLeTransitive(a: Text, b: Text, c: Text)
    requires TextLe(a, b) && TextLe(b, c)
    ensures TextLe(a, c)
  {
    if a != [] && a[0] == b[0] && b[0] == c[0] {
      TextLeTransitive(a[1..], b[1..], c[1..]);
    }
  }

  lemma KeyLeAntisymmetric(a: Key, b: Key)
    requires KeyLe(a, b) && KeyLe(b, a)
    ensures a == b
  {
    if a.StrKey? {
      TextLeAntisymmetric(a.text, b.text);
    }
  }

  lemma KeyLeTransitive(a: Key, b: Key, c: Key)
    requires KeyLe(a, b) && KeyLe(b, c)
    ensures KeyLe(a, c)
  {
    if a.StrKey? {
      TextLeTransitive(a.text, b.text, c.text);
    }
  }

  lemma StringKeysComparable(keys: set<Key>)
    requires forall k | k in keys :: k.StrKey?
    ensures Comparable(keys)
  {
    forall a, b | a in keys && b in keys
      ensures KeyLe(a, b) || KeyLe(b, a)
    {
      TextLeTotal(a.text, b.text);
    }
  }

  predicate Least(k: Key, keys: set<Key>) {
    k in keys && forall x | x in keys :: KeyLe(k, x)
  }

  lemma {:induction false} LeastExists(keys: set<Key>)
    requires keys != {} && Comparable(keys)
    ensures exists k :: Least(k, keys)
  {
    var k :| k in keys;
    var others := keys - {k};
    if others == {} {
      assert keys == {k};
      assert Least(k, keys);
    } else {
      LeastExists(others);
      var m :| Least(m, others);
      if KeyLe(k, m) {
        forall x | x in keys
          ensures KeyLe(k, x)
        {
          if x != k {
            KeyLeTransitive(k, m, x);
          }
        }
        assert Least(k, keys);
      } else {
        assert Least(m, keys);
      }
    }
  }

  lemma LeastUnique(keys: set<Key>)
    ensures forall j, k :: Least(j, keys) && Least(k, keys) ==> j == k
  {
    forall j, k | Least(j, keys) && Least(k, keys)
      ensures j == k
    {
      KeyLeAntisymmetric(j, k);
    }
  }

  /** `sorted(keys)` */
  function SortKeys(keys: set<Key>): (r: seq<Key>)
    requires Comparable(keys)
    ensures forall k :: k in r <==> k in keys
    ensures forall i, j | 0 <= i < j < |r| :: r[i] != r[j] && KeyLe(r[i], r[j])
  {
    if keys == {} then []
    else
      LeastExists(keys);
      LeastUnique(keys);
      var k :| k in keys && Least(k, keys);
      [k] + SortKeys(keys - {k})
  }

  // ---------- printing ----------

  function EscapeChar(c: CodePoint, ascii: bool): (t: Text) {
    if c == QUOTE then [BACKSLASH, QUOTE]
    else if c == BACKSLASH then [BACKSLASH, BACKSLASH]
    else if c == 8 then [BACKSLASH, 'b' as int]
    else if c == 9 then [BACKSLASH, 't' as int]
    else if c == 10 then [BACKSLASH, 'n' as int]
    else if c == 12 then [BACKSLASH, 'f' as int]
    else if c == 13 then [BACKSLASH, 'r' as int]
    else if c < 0x20 || (ascii && 0x7F <= c < 0x1_0000) then [BACKSLASH, LOWER_U] + Hex4(c)
    else if ascii && 0x1_0000 <= c then
      [BACKSLASH, LOWER_U] + Hex4(0xD800 + (c - 0x1_0000) / 1024) + ([BACKSLASH, LOWER_U] + Hex4(0xDC00 + c % 1024))
    else [c]
  }

  function Escape(t: Text, ascii: bool): Text {
    if t == [] then [] else EscapeChar(t[0], ascii) + Escape(t[1..], ascii)
  }

  function Quoted(t: Text, ascii: bool): Text {
    [QUOTE] + (Escape(t, ascii) + [QUOTE])
  }

  /** A key that is not a string is printed as the string of its JSON form. */
  function KeyText(k: Key): Text {
    match k
    case StrKey(t) => t
    case IntKey(i) => PrintInt(i)
    case BoolKey(b) => if b then Lit("true") else Lit("false")
    case NoneKey => Lit("null")
  }

  /** `json.dumps`; None where Python raises TypeError, and on floats, which this model does not print. */
  function Dumps(v: Value, ascii: bool): Option<Text>
    decreases v, 1, 0
  {
    match v
    case Null => Some(Lit("null"))
    case Bool(b) => Some(if b then Lit("true") else Lit("false"))
    case Int(i) => Some(PrintInt(i))
    case Float(_) => None
    case Str(t) => Some(Quoted(t, ascii))
    case List(vs) =>
      var body :- DumpItems(v, vs, ascii);
      Some([LBRACKET] + (body + [RBRACKET]))
    case Tuple(vs) =>
      var body :- DumpItems(v, vs, ascii);
      Some([LBRACKET] + (body + [RBRACKET]))
    case Dict(m) =>
      if !Comparable(m.Keys) then None
      else
        var body :- DumpMembers(v, SortKeys(m.Keys), ascii);
        Some([LBRACE] + (body + [RBRACE]))
  }

  function DumpItems(v: Value, vs: seq<Value>, ascii: bool): Option<Text>
    requires v.List? || v.Tuple?
    requires forall x | x in vs :: x in v.items
    decreases v, 0, |vs|
  {
    if vs == [] then Some([])
    else
      assert vs[0] in vs;
      var first :- Dumps(vs[0], ascii);
      if |vs| == 1 then Some(first)
      else
        var others :- DumpItems(v, vs[1..], ascii);
        Some(first + ([COMMA] + others))
  }

  function DumpMembers(v: Value, keys: seq<Key>, ascii: bool): Option<Text>
    requires v.Dict? && forall k | k in keys :: k in v.entries
    decreases v, 0, |keys|
  {
    if keys == [] then Some([])
    else
      assert keys[0] in keys;
      var item :- Dumps(v.entries[keys[0]], ascii);
      var first := Quoted(KeyText(keys[0]), ascii) + ([COLON] + item);
      if |keys| == 1 then Some(first)
      else
        var others :- DumpMembers(v, keys[1..], ascii);
        Some(first + ([COMMA] + others))
  }

  // ---------- parsing ----------

  datatype Parsed<+T> = Parsed(value: T, rest: Text)

  function SkipWhitespace(s: Text): (r: Text)
    ensures |r| <= |s|
    ensures r == [] || !Whitespace(r[0])
  {
    if s == [] || !Whitespace(s[0]) then s else SkipWhitespace(s[1..])
  }

  function SimpleEscape(c: CodePoint): Option<CodePoint> {
    if c == QUOTE || c == BACKSLASH || c == '/' as int then Some(c)
    else if c == 'b' as int then Some(8)
    else if c == 't' as int then Some(9)
    else if c == 'n' as int then Some(10)
    else if c == 'f' as int then Some(12)
    else if c == 'r' as int then Some(13)
    else None
  }

  /** The low surrogate that an escape at the start of `s` denotes. */
  function LowSurrogate(s: Text): (r: Option<nat>)
    ensures r.Some? ==> |s| >= 6 && 0xDC00 <= r.value < 0xE000
  {
    if |s| < 2 || s[0] != BACKSLASH || s[1] != LOWER_U then None
    else
      var low: nat :- ReadHex4(s[2..]);
      if 0xDC00 <= low < 0xE000 then Some(low) else None
  }

  /** The escape after a backslash. A high surrogate joins a low one that follows; otherwise it stays alone. */
  function ParseEscape(s: Text): (r: Option<Parsed<CodePoint>>)
    ensures r.Some? ==> |r.value.rest| < |s|
  {
    if s == [] then None
    else if s[0] != LOWER_U then
      var c :- SimpleEscape(s[0]);
      Some(Parsed(c, s[1..]))
    else
      var unit: nat :- ReadHex4(s[1..]);
      var low := if 0xD800 <= unit < 0xDC00 then LowSurrogate(s[5..]) else None;
      if low.Some? then Some(Parsed(0x1_0000 + (unit - 0xD800) * 1024 + (low.value - 0xDC00), s[11..]))
      else Some(Parsed(unit, s[5..]))
  }

  /** The characters of a string after its opening quote. */
  function ParseString(s: Text): (r: Option<Parsed<Text>>)
    ensures r.Some? ==> |r.value.rest| < |s|
    decreases |s|
  {
    if s == [] || s[0] < 0x20 then None
    else if s[0] == QUOTE then Some(Parsed([], s[1..]))
    else if s[0] == BACKSLASH then
      var c :- ParseEscape(s[1..]);
      var r :- ParseString(c.rest);
      Some(Parsed([c.value] + r.value, r.rest))
    else
      var r :- ParseString(s[1..]);
      Some(Parsed([s[0]] + r.value, r.rest))
  }

  function FractionLength(s: Text): (n: nat)
    ensures n <= |s|
  {
    if |s| >= 2 && s[0] == DOT && IsDigit(s[1]) then 1 + DigitRun(s[1..]) else 0
  }

  function ExponentLength(s: Text): (n: nat)
    ensures n <= |s|
  {
    if |s| >= 2 && (s[0] == 'e' as int || s[0] == 'E' as int) then
      if IsDigit(s[1]) then 1 + DigitRun(s[1..])
      else if |s| >= 3 && (s[1] == '+' as int || s[1] == MINUS) && IsDigit(s[2]) then 2 + DigitRun(s[2..])
      else 0
    else 0
  }

  /** The width of the integer part: a lone zero, or a digit run without a leading zero. */
  function IntegerWidth(s: Text): (n: nat)
    ensures n <= |s|
    ensures forall i | 0 <= i < n :: IsDigit(s[i])
  {
    if s != [] && s[0] == '0' as int then 1 else DigitRun(s)
  }

  /** The width of what makes a number a float. */
  function FloatWidth(s: Text): (n: nat)
    ensures n <= |s|
  {
    FractionLength(s) + ExponentLength(s[FractionLength(s)..])
  }

  /** The longest number at the start of `s`: an integer unless a fraction or an exponent follows. */
  function ParseNumber(s: Text): (r: Option<Parsed<Value>>)
    ensures r.Some? ==> |r.value.rest| < |s|
  {
    var negative := s != [] && s[0] == MINUS;
    var body := if negative then s[1..] else s;
    var width := IntegerWidth(body);
    if width == 0 then None
    else
      var more := FloatWidth(body[width..]);
      var rest := body[width + more..];
      if more > 0 then Some(Parsed(Float(s[..|s| - |rest|]), rest))
      else
        var n: int := DigitsValue(body[..width]);
        Some(Parsed(Int(if negative then -n else n), rest))
  }

  /** `{}.update` one pair at a time, raising on a repeated key. */
  function ToDict(pairs: seq<(Text, Value)>): Option<map<Key, Value>> {
    if pairs == [] then Some(map[])
    else
      var last := pairs[|pairs| - 1];
      var dict :- ToDict(pairs[..|pairs| - 1]);
      if StrKey(last.0) in dict then None else Some(dict[StrKey(last.0) := last.1])
  }

  /**
   One value at the start of `s`. NaN and the infinities are read as floats. No codec accepts a float, so
   every codec refuses them.
   */
  function ParseValue(s: Text): (r: Option<Parsed<Value>>)
    ensures r.Some? ==> |r.value.rest| < |s|
    decreases |s|, 0
  {
    if s == [] then None
    else if s[0] == QUOTE then
      var t :- ParseString(s[1..]);
      Some(Parsed(Str(t.value), t.rest))
    else if s[0] == LBRACE then
      var t := SkipWhitespace(s[1..]);
      if t != [] && t[0] == RBRACE then Some(Parsed(Dict(map[]), t[1..]))
      else
        var members :- ParseMembers(t);
        var dict :- ToDict(members.value);
        Some(Parsed(Dict(dict), members.rest))
    else if s[0] == LBRACKET then
      var t := SkipWhitespace(s[1..]);
      if t != [] && t[0] == RBRACKET then Some(Parsed(List([]), t[1..]))
      else
        var items :- ParseItems(t);
        Some(Parsed(List(items.value), items.rest))
    else if IsDigit(s[0]) || (s[0] == MINUS && !(Lit("-Infinity") <= s)) then ParseNumber(s)
    else if Lit("null") <= s then Some(Parsed(Null, s[4..]))
    else if Lit("true") <= s then Some(Parsed(Bool(true), s[4..]))
    else if Lit("false") <= s then Some(Parsed(Bool(false), s[5..]))
    else if Lit("NaN") <= s then Some(Parsed(Float(s[..3]), s[3..]))
    else if Lit("Infinity") <= s then Some(Parsed(Float(s[..8]), s[8..]))
    else if Lit("-Infinity") <= s then Some(Parsed(Float(s[..9]), s[9..]))
    else None
  }

  function ParseItems(s: Text): (r: Option<Parsed<seq<Value>>>)
    ensures r.Some? ==> |r.value.rest| < |s|
    decreases |s|, 1
  {
    var first :- ParseValue(s);
    var t := SkipWhitespace(first.rest);
    if t == [] then None
    else if t[0] == RBRACKET then Some(Parsed([first.value], t[1..]))
    else if t[0] == COMMA then
      var others :- ParseItems(SkipWhitespace(t[1..]));
      Some(Parsed([first.value] + others.value, others.rest))
    else None
  }

  function ParseMember(s: Text): (r: Option<Parsed<(Text, Value)>>)
    ensures r.Some? ==> |r.value.rest| < |s|
    decreases |s|, 1
  {
    if s == [] || s[0] != QUOTE then None
    else
      var key :- ParseString(s[1..]);
      var t := SkipWhitespace(key.rest);
      if t == [] || t[0] != COLON then None
      else
        var item :- ParseValue(SkipWhitespace(t[1..]));
        Some(Parsed((key.value, item.value), item.rest))
  }

  function ParseMembers(s: Text): (r: Option<Parsed<seq<(Text, Value)>>>)
    ensures r.Some? ==> |r.value.rest| < |s|
    decreases |s|, 2
  {
    var first :- ParseMember(s);
    var t := SkipWhitespace(first.rest);
    if t == [] then None
    else if t[0] == RBRACE then Some(Parsed([first.value], t[1..]))
    else if t[0] == COMMA then
      var others :- ParseMembers(SkipWhitespace(t[1..]));
      Some(Parsed([first.value] + others.value, others.rest))
    else None
  }

  /** `json.loads(text, object_pairs_hook=_reject_duplicate_keys)`; None where it raises. */
  function Loads(text: Text): Option<Value> {
    var v :- ParseValue(SkipWhitespace(text));
    if SkipWhitespace(v.rest) == [] then Some(v.value) else None
  }

  predicate DistinctKeys(pairs: seq<(Text, Value)>) {
    forall i, j | 0 <= i < j < |pairs| :: pairs[i].0 != pairs[j].0
  }

  predicate HasKey(pairs: seq<(Text, Value)>, key: Text) {
    exists i | 0 <= i < |pairs| :: pairs[i].0 == key
  }

  lemma HasKeyOfFront(pairs: seq<(Text, Value)>, key: Text)
    requires pairs != []
    ensures HasKey(pairs, key) <==> HasKey(pairs[..|pairs| - 1], key) || pairs[|pairs| - 1].0 == key
  {
    var front := pairs[..|pairs| - 1];
    if HasKey(pairs, key) {
      var i :| 0 <= i < |pairs| && pairs[i].0 == key;
      assert i < |front| ==> front[i].0 == key;
    }
    if HasKey(front, key) {
      var i :| 0 <= i < |front| && front[i].0 == key;
      assert pairs[i].0 == key;
    }
  }

  /** The dictionary has the keys of the pairs and no others. */
  lemma {:induction false} ToDictKeys(pairs: seq<(Text, Value)>, k: Key)
    requires ToDict(pairs).Some?
    ensures k in ToDict(pairs).value <==> k.StrKey? && HasKey(pairs, k.text)
  {
    if pairs != [] {
      ToDictKeys(pairs[..|pairs| - 1], k);
      if k.StrKey? {
        HasKeyOfFront(pairs, k.text);
      }
    }
  }

  /** Every pair keeps its value. */
  lemma {:induction false} ToDictValues(pairs: seq<(Text, Value)>, i: nat)
    requires ToDict(pairs).Some? && i < |pairs|
    ensures StrKey(pairs[i].0) in ToDict(pairs).value && ToDict(pairs).value[StrKey(pairs[i].0)] == pairs[i].1
  {
    if i < |pairs| - 1 {
      ToDictValues(pairs[..|pairs| - 1], i);
    }
  }

  /** The hook raises exactly on a repeated key. */
  lemma {:induction false} ToDictDefined(pairs: seq<(Text, Value)>)
    ensures ToDict(pairs).Some? <==> DistinctKeys(pairs)
  {
    if pairs != [] {
      var n := |pairs| - 1;
      var front := pairs[..n];
      ToDictDefined(front);
      if ToDict(front).Some? {
        ToDictKeys(front, StrKey(pairs[n].0));
        if HasKey(front, pairs[n].0) {
          var i :| 0 <= i < n && front[i].0 == pairs[n].0;
          assert pairs[i].0 == pairs[n].0;
        } else {
          forall i, j | 0 <= i < j < |pairs|
            ensures pairs[i].0 != pairs[j].0
          {
            assert front[i].0 == pairs[i].0;
          }
        }
      } else {
        var i, j :| 0 <= i < j < |front| && front[i].0 == front[j].0;
        assert pairs[i].0 == pairs[j].0;
      }
    }
  }

  /** `_reject_duplicate_keys`, the hook of all three codecs; each raises its own error class. */
  method RejectDuplicateKeys(pairs: seq<(Text, Value)>, duplicate: Error) returns (r: Result<map<Key, Value>>)
    ensures if DistinctKeys(pairs) then ToDict(pairs).Some? && r == Ok(ToDict(pairs).value) else r == Err(duplicate)
  {
    var result: map<Key, Value> := map[];
    for i := 0 to |pairs|
      invariant ToDict(pairs[..i]) == Some(result)
    {
      var (key, value) := pairs[i];
      assert pairs[..i + 1][..i] == pairs[..i];
      if StrKey(key) in result {
        ghost var prefix := pairs[..i];
        ToDictKeys(prefix, StrKey(key));
        ghost var j :| 0 <= j < i && prefix[j].0 == key;
        assert pairs[j].0 == pairs[i].0;
        return Err(duplicate);
      }
      result := result[StrKey(key) := value];
    }
    assert pairs[..|pairs|] == pairs;
    ToDictDefined(pairs);
    return Ok(result);
  }
}
