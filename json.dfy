/**
 * `json.loads` on a `str`, as CPython's C scanner does it in strict mode:
 * the grammar of RFC 8259 section 2 plus the constants `NaN`, `Infinity` and
 * `-Infinity`, with ASCII digits only, control characters refused inside
 * strings, surrogate pairs joined, duplicate object keys kept in order, and
 * integer literals of more than 4300 digits refused.  The decoder's
 * recursion limit is not modelled: arrays and objects nest to any depth.
 */
module Json {
  import opened Common

  /** A decoded value.  Strings are sequences of code points (a lone
      surrogate escape decodes to a surrogate code point). */
  datatype Value =
    | Null
    | Bool(b: bool)
    | Int(i: int)
    | Float(neg: bool, mant: nat, exp10: int)  // the literal's value, ±mant·10^exp10
    | NaN
    | Infinity(neg: bool)
    | Str(units: seq<int>)
    | Arr(items: seq<Value>)
    | Obj(members: seq<Member>)

  datatype Member = Member(key: seq<int>, val: Value)

  datatype Parsed = Parsed(v: Value, rest: string)
  datatype ParsedStr = ParsedStr(units: seq<int>, rest: string)
  datatype ParsedItems = ParsedItems(vs: seq<Value>, rest: string)
  datatype ParsedMembers = ParsedMembers(ms: seq<Member>, rest: string)

  predicate IsWs(c: char) { c == ' ' || c == '\t' || c == '\n' || c == '\r' }
  predicate IsDigit(c: char) { '0' <= c <= '9' }

  /** Skip JSON whitespace. */
  function Ws(s: string): (r: string)
    ensures |r| <= |s|
    ensures r == [] || !IsWs(r[0])
  {
    if s != [] && IsWs(s[0]) then Ws(s[1..]) else s
  }

  /** Length of the run of ASCII digits that starts `s`. */
  function DigitRun(s: string): (n: nat)
    ensures n <= |s|
    ensures forall i :: 0 <= i < n ==> IsDigit(s[i])
    ensures n == |s| || !IsDigit(s[n])
  {
    if s != [] && IsDigit(s[0]) then 1 + DigitRun(s[1..]) else 0
  }

  function DigitsValue(s: string): nat
    requires forall i :: 0 <= i < |s| ==> IsDigit(s[i])
  {
    if s == [] then 0
    else
      assert IsDigit(s[|s| - 1]);
      10 * DigitsValue(s[..|s| - 1]) + (s[|s| - 1] as int - '0' as int)
  }

  predicate IsHex(c: char) { IsDigit(c) || 'a' <= c <= 'f' || 'A' <= c <= 'F' }

  function HexValue(c: char): int
    requires IsHex(c)
  {
    if IsDigit(c) then c as int - '0' as int
    else if 'a' <= c <= 'f' then c as int - 'a' as int + 10
    else c as int - 'A' as int + 10
  }

  function Hex4(s: string): int
    requires |s| == 4 && forall i :: 0 <= i < 4 ==> IsHex(s[i])
  {
    ((HexValue(s[0]) * 16 + HexValue(s[1])) * 16 + HexValue(s[2])) * 16 + HexValue(s[3])
  }

  predicate AllHex(s: string) { forall i :: 0 <= i < |s| ==> IsHex(s[i]) }

  predicate IsHighSurrogate(c: int) { 0xD800 <= c <= 0xDBFF }
  predicate IsLowSurrogate(c: int) { 0xDC00 <= c <= 0xDFFF }

  /** The character a one-letter escape `\c` stands for. */
  function SimpleEscape(c: char): Option<int> {
    match c
    case '"' => Some('"' as int)
    case '\\' => Some('\\' as int)
    case '/' => Some('/' as int)
    case 'b' => Some(8)
    case 'f' => Some(12)
    case 'n' => Some(10)
    case 'r' => Some(13)
    case 't' => Some(9)
    case _ => None
  }

  function Prepend(c: int, r: Option<ParsedStr>): Option<ParsedStr> {
    match r
    case None => None
    case Some(p) => Some(ParsedStr([c] + p.units, p.rest))
  }

  /** The body of a string literal, from just after the opening quote. */
  function ParseStr(s: string): (r: Option<ParsedStr>)
    ensures r.Some? ==> |r.value.rest| < |s|
    decreases |s|
  {
    if s == [] then None
    else if s[0] == '"' then Some(ParsedStr([], s[1..]))
    else if s[0] == '\\' then
      if |s| < 2 then None
      else if s[1] != 'u' then
        match SimpleEscape(s[1])
        case None => None
        case Some(c) => Prepend(c, ParseStr(s[2..]))
      else if |s| < 7 || !AllHex(s[2..6]) then None
      else
        var c := Hex4(s[2..6]);
        if IsHighSurrogate(c) && |s| > 12 && s[6] == '\\' && s[7] == 'u' then
          if !AllHex(s[8..12]) then None
          else
            var c2 := Hex4(s[8..12]);
            if IsLowSurrogate(c2) then
              Prepend(0x10000 + (c - 0xD800) * 0x400 + (c2 - 0xDC00), ParseStr(s[12..]))
            else Prepend(c, ParseStr(s[6..]))
        else Prepend(c, ParseStr(s[6..]))
    else if s[0] as int <= 0x1F then None
    else Prepend(s[0] as int, ParseStr(s[1..]))
  }

  /** 1 when the exponent marker of `w` is followed by a sign, else 0. */
  function ExpSignLen(w: string): nat {
    if |w| >= 2 && (w[1] == '+' || w[1] == '-') then 1 else 0
  }

  /** Length of the exponent part `[eE][-+]?\d+` that starts `w`, or 0. */
  function ExponentLen(w: string): (n: nat)
    ensures n <= |w|
    ensures n > 0 ==> n >= 2 + ExpSignLen(w) && (w[0] == 'e' || w[0] == 'E')
    ensures n > 0 ==> forall i :: 1 + ExpSignLen(w) <= i < n ==> IsDigit(w[i])
  {
    if |w| < 2 || !(w[0] == 'e' || w[0] == 'E') then 0
    else
      var rest := w[1 + ExpSignLen(w)..];
      var d := DigitRun(rest);
      assert forall i :: 1 + ExpSignLen(w) <= i < 1 + ExpSignLen(w) + d ==> w[i] == rest[i - 1 - ExpSignLen(w)];
      if d == 0 then 0 else 1 + ExpSignLen(w) + d
  }

  function ExponentValue(w: string): int
    requires ExponentLen(w) > 0
  {
    var piece := w[1 + ExpSignLen(w)..ExponentLen(w)];
    assert forall i :: 0 <= i < |piece| ==> piece[i] == w[1 + ExpSignLen(w) + i];
    var m: int := DigitsValue(piece);
    if w[1] == '-' then -m else m
  }

  /** Length of the integer part `0|[1-9]\d*` that starts `t`, or 0. */
  function IntegerLen(t: string): (n: nat)
    ensures n <= |t|
    ensures forall i :: 0 <= i < n ==> IsDigit(t[i])
    ensures n == 0 <==> t == [] || !IsDigit(t[0])
  {
    if t == [] || !IsDigit(t[0]) then 0
    else if t[0] == '0' then 1
    else DigitRun(t)
  }

  /** Length of the fraction part `\.\d+` that starts `u`, or 0. */
  function FractionLen(u: string): (n: nat)
    ensures n <= |u|
    ensures n != 1
    ensures forall i :: 1 <= i < n ==> IsDigit(u[i])
  {
    if |u| >= 2 && u[0] == '.' && IsDigit(u[1]) then 1 + DigitRun(u[1..]) else 0
  }

  /** The digits of the integer part `t[..n]` followed by those of the
      fraction part `u[..f]` without its dot. */
  function Mantissa(t: string, n: nat, u: string, f: nat): (d: string)
    requires n <= |t| && forall i :: 0 <= i < n ==> IsDigit(t[i])
    requires f <= |u| && forall i :: 1 <= i < f ==> IsDigit(u[i])
    ensures forall i :: 0 <= i < |d| ==> IsDigit(d[i])
  {
    var a := t[..n];
    var b := if f >= 1 then u[1..f] else [];
    assert forall i :: 0 <= i < |a| ==> a[i] == t[i];
    assert forall i :: 0 <= i < |b| ==> b[i] == u[i + 1];
    a + b
  }

  /** A number literal: `-?(0|[1-9]\d*)(\.\d+)?([eE][-+]?\d+)?`. */
  function ParseNumber(s: string): (r: Option<Parsed>)
    ensures r.Some? ==> |r.value.rest| < |s|
  {
    var neg := s != [] && s[0] == '-';
    var t := if neg then s[1..] else s;
    var n := IntegerLen(t);
    if n == 0 then None
    else
      var u := t[n..];
      var f := FractionLen(u);
      var w := u[f..];
      var e := ExponentLen(w);
      var v := NumberValue(neg, t, n, u, f, w, e);
      if v.None? then None else Some(Parsed(v.value, w[e..]))
  }

  /** The value of a number literal split into its integer part `t[..n]`,
      fraction part `u[..f]` and exponent part `w[..e]`; an integer of more
      than `MaxIntDigits` digits is refused. */
  function NumberValue(neg: bool, t: string, n: nat, u: string, f: nat, w: string, e: nat): Option<Value>
    requires n == IntegerLen(t) && u == t[n..]
    requires f == FractionLen(u) && w == u[f..] && e == ExponentLen(w)
  {
    if f == 0 && e == 0 then
      if n > MaxIntDigits then None
      else
        var m: int := DigitsValue(Mantissa(t, n, u, 0));
        Some(Int(if neg then -m else m))
    else
      var ex := if e == 0 then 0 else ExponentValue(w);
      Some(Float(neg, DigitsValue(Mantissa(t, n, u, f)), ex - (Max(1, f) - 1)))
  }

  /** One value, starting at its first character. */
  function ParseValue(s: string): (r: Option<Parsed>)
    ensures r.Some? ==> |r.value.rest| < |s|
    decreases |s|, 0
  {
    if s == [] then None
    else if s[0] == '"' then
      match ParseStr(s[1..])
      case None => None
      case Some(p) => Some(Parsed(Str(p.units), p.rest))
    else if s[0] == '{' then ParseObject(Ws(s[1..]))
    else if s[0] == '[' then ParseArray(Ws(s[1..]))
    else if "null" <= s then Some(Parsed(Null, s[4..]))
    else if "true" <= s then Some(Parsed(Bool(true), s[4..]))
    else if "false" <= s then Some(Parsed(Bool(false), s[5..]))
    else if "NaN" <= s then Some(Parsed(NaN, s[3..]))
    else if "Infinity" <= s then Some(Parsed(Infinity(false), s[8..]))
    else if "-Infinity" <= s then Some(Parsed(Infinity(true), s[9..]))
    else ParseNumber(s)
  }

  /** The inside of an array, after `[` and the whitespace that follows. */
  function ParseArray(s: string): (r: Option<Parsed>)
    ensures r.Some? ==> |r.value.rest| < |s|
    ensures r.Some? ==> r.value.v.Arr?
    decreases |s|, 2
  {
    if s != [] && s[0] == ']' then Some(Parsed(Arr([]), s[1..]))
    else
      match ParseItems(s)
      case None => None
      case Some(p) => Some(Parsed(Arr(p.vs), p.rest))
  }

  /** `value ws (',' ws value ws)* ']'`. */
  function ParseItems(s: string): (r: Option<ParsedItems>)
    ensures r.Some? ==> |r.value.rest| < |s|
    decreases |s|, 1
  {
    match ParseValue(s)
    case None => None
    case Some(p) =>
      var t := Ws(p.rest);
      if t != [] && t[0] == ']' then Some(ParsedItems([p.v], t[1..]))
      else if t == [] || t[0] != ',' then None
      else
        match ParseItems(Ws(t[1..]))
        case None => None
        case Some(q) => Some(ParsedItems([p.v] + q.vs, q.rest))
  }

  /** The inside of an object, after `{` and the whitespace that follows. */
  function ParseObject(s: string): (r: Option<Parsed>)
    ensures r.Some? ==> |r.value.rest| < |s|
    ensures r.Some? ==> r.value.v.Obj?
    decreases |s|, 2
  {
    if s != [] && s[0] == '}' then Some(Parsed(Obj([]), s[1..]))
    else
      match ParseMembers(s)
      case None => None
      case Some(p) => Some(Parsed(Obj(p.ms), p.rest))
  }

  /** `string ws ':' ws value ws (',' ws string ws ':' ws value ws)* '}'`. */
  function ParseMembers(s: string): (r: Option<ParsedMembers>)
    ensures r.Some? ==> |r.value.rest| < |s|
    decreases |s|, 1
  {
    if s == [] || s[0] != '"' then None
    else
      match ParseStr(s[1..])
      case None => None
      case Some(k) =>
        var a := Ws(k.rest);
        if a == [] || a[0] != ':' then None
        else ParseMemberValue(k.units, Ws(a[1..]))
  }

  /** The value of a member whose key and `:` have been read, and what follows it. */
  function ParseMemberValue(key: seq<int>, s: string): (r: Option<ParsedMembers>)
    ensures r.Some? ==> |r.value.rest| < |s|
    decreases |s|, 1
  {
    match ParseValue(s)
    case None => None
    case Some(p) =>
      var t := Ws(p.rest);
      if t != [] && t[0] == '}' then Some(ParsedMembers([Member(key, p.v)], t[1..]))
      else if t == [] || t[0] != ',' then None
      else
        match ParseMembers(Ws(t[1..]))
        case None => None
        case Some(q) => Some(ParsedMembers([Member(key, p.v)] + q.ms, q.rest))
  }

  /** `json.loads(s)`: `None` where Python raises. */
  function Loads(s: string): Option<Value>
  {
    if s != [] && s[0] == '\U{FEFF}' then None
    else
      match ParseValue(Ws(s))
      case None => None
      case Some(p) => if Ws(p.rest) == [] then Some(p.v) else None
  }

  /** Does `json.loads(s)` return without raising? */
  predicate Parses(s: string) { Loads(s).Some? }

  lemma ParseValueEmptyList()
    ensures ParseValue("[]") == Some(Parsed(Arr([]), ""))
  {
    assert "[]"[1..] == "]";
    assert Ws("]") == "]";
    assert ParseArray("]") == Some(Parsed(Arr([]), ""));
  }

  /** The empty-list text always parses, to the empty list. */
  lemma LoadsEmptyList()
    ensures Loads("[]") == Some(Arr([]))
  {
    ParseValueEmptyList();
    var s := "[]";
    assert Ws(s) == s by { assert !IsWs(s[0]); }
    assert Ws([]) == [];
  }

  /** Text that starts with `[` can only parse to a list, and text that
      starts with `{` only to an object. */
  lemma LoadsBracket(s: string)
    requires s != [] && Loads(s).Some?
    ensures s[0] == '[' ==> Loads(s).value.Arr?
    ensures s[0] == '{' ==> Loads(s).value.Obj?
  {
    if s[0] == '[' || s[0] == '{' {
      assert Ws(s) == s;
    }
  }

  function Pow(b: nat, n: nat): nat {
    if n == 0 then 1 else b * Pow(b, n - 1)
  }

  /** Does the float literal ±mant·10^exp10 become 0.0?  Below 2^-1075 the
      nearest double is 0.0, and 2^-1075 itself ties and rounds to the even 0.0. */
  predicate FloatIsZero(mant: nat, exp10: int) {
    mant == 0 || (exp10 < 0 && mant * Pow(2, 1075) <= Pow(10, -exp10))
  }

  /** Python's `bool(v)` for a decoded value. */
  predicate Truthy(v: Value) {
    match v
    case Null => false
    case Bool(b) => b
    case Int(i) => i != 0
    case Float(_, m, e) => !FloatIsZero(m, e)
    case NaN => true
    case Infinity(_) => true
    case Str(u) => u != []
    case Arr(xs) => xs != []
    case Obj(ms) => ms != []
  }

  function Units(s: string): seq<int> {
    seq(|s|, i requires 0 <= i < |s| => s[i] as int)
  }

  /** The position of the last member with the given key, or -1. */
  function LastWith(ms: seq<Member>, key: seq<int>): (i: int)
    ensures -1 <= i < |ms|
    ensures i >= 0 ==> ms[i].key == key
    ensures forall j :: i < j < |ms| ==> ms[j].key != key
  {
    if ms == [] then -1
    else if ms[|ms| - 1].key == key then |ms| - 1
    else
      var i := LastWith(ms[..|ms| - 1], key);
      assert forall j :: i < j < |ms| - 1 ==> ms[j] == ms[..|ms| - 1][j];
      i
  }

  /** `d.get(key)` on the dict built from the members: the value of the
      last member with the key, since a later key overwrites an earlier. */
  function Get(ms: seq<Member>, key: string): (r: Option<Value>)
    ensures var i := LastWith(ms, Units(key));
      r == if i >= 0 then Some(ms[i].val) else None
  {
    if ms == [] then None
    else if ms[|ms| - 1].key == Units(key) then Some(ms[|ms| - 1].val)
    else
      var r := Get(ms[..|ms| - 1], key);
      assert LastWith(ms, Units(key)) == LastWith(ms[..|ms| - 1], Units(key));
      r
  }
}
