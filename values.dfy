/**
 * Column values of an entity: the CLR types that primary keys use here (int,
 * string, Guid), the order the database sorts them in, their `ToString()` forms
 * and `Convert.ChangeType(string, type)`.
 */
module Values {
  import opened Wrappers

  /** The declared CLR type of a property (nullable types are unwrapped to these). */
  datatype ClrType = TInt | TString | TGuid

  /** A property value; `Guid(g)` holds the number read from its 32 hex digits. Neither
    * `Int` nor `Guid` is bounded here: only parsing a key component yields a 32-bit int. */
  datatype Value = Null | Int(i: int) | Str(s: string) | Guid(g: nat)

  const Int32Min: int := -0x8000_0000
  const Int32Max: int := 0x7FFF_FFFF

  /** A non-null value that a property of type `t` can hold. */
  predicate OfType(v: Value, t: ClrType) {
    match v
    case Null => false
    case Int(_) => t == TInt
    case Str(_) => t == TString
    case Guid(_) => t == TGuid
  }

  // ---------------------------------------------------------------------------
  // Sort order

  function Rank(v: Value): nat {
    match v
    case Int(_) => 0
    case Str(_) => 1
    case Guid(_) => 2
    case Null => 3
  }

  /** Ordinal string order: character codes compared left to right, a proper prefix first. */
  predicate StrLt(a: string, b: string)
    decreases |a|
  {
    if a == [] then b != []
    else if b == [] then false
    else a[0] < b[0] || (a[0] == b[0] && StrLt(a[1..], b[1..]))
  }

  /** The strict order a column's values sort in. NULL sorts after every value, as in
    * PostgreSQL (so ascending order puts NULLs last and descending order first);
    * values of different kinds never meet in one typed column and are ranked only
    * to keep the order total. */
  predicate ValueLt(a: Value, b: Value) {
    if Rank(a) != Rank(b) then Rank(a) < Rank(b)
    else match a
      case Null => false
      case Int(x) => x < b.i
      case Str(x) => StrLt(x, b.s)
      case Guid(x) => x < b.g
  }

  lemma {:induction false} StrLtIrreflexive(a: string)
    ensures !StrLt(a, a)
    decreases |a|
  {
    if a != [] { StrLtIrreflexive(a[1..]); }
  }

  lemma {:induction false} StrLtTransitive(a: string, b: string, c: string)
    requires StrLt(a, b) && StrLt(b, c)
    ensures StrLt(a, c)
    decreases |a|
  {
    if a != [] && b != [] && c != [] && a[0] == b[0] == c[0] {
      StrLtTransitive(a[1..], b[1..], c[1..]);
    }
  }

  lemma {:induction false} StrLtTotal(a: string, b: string)
    requires a != b
    ensures StrLt(a, b) || StrLt(b, a)
    decreases |a|
  {
    if a != [] && b != [] && a[0] == b[0] {
      assert a == [a[0]] + a[1..] && b == [b[0]] + b[1..];
      StrLtTotal(a[1..], b[1..]);
    }
  }

  lemma ValueLtIrreflexive(a: Value)
    ensures !ValueLt(a, a)
  {
    if a.Str? { StrLtIrreflexive(a.s); }
  }

  lemma ValueLtTransitive(a: Value, b: Value, c: Value)
    requires ValueLt(a, b) && ValueLt(b, c)
    ensures ValueLt(a, c)
  {
    if a.Str? && b.Str? && c.Str? { StrLtTransitive(a.s, b.s, c.s); }
  }

  lemma ValueLtTotal(a: Value, b: Value)
    requires a != b
    ensures ValueLt(a, b) || ValueLt(b, a)
  {
    if a.Str? && b.Str? { StrLtTotal(a.s, b.s); }
  }

  // ---------------------------------------------------------------------------
  // ToString()

  function DigitChar(d: nat): (c: char)
    requires d < 16
  {
    if d < 10 then ('0' as int + d) as char else ('a' as int + d - 10) as char
  }

  predicate IsDecimalDigit(c: char) {
    '0' <= c <= '9'
  }

  /** Decimal digits of `n`, no leading zeros. */
  function NatToString(n: nat): (r: string)
    ensures r != [] && forall i :: 0 <= i < |r| ==> IsDecimalDigit(r[i])
    decreases n
  {
    if n < 10 then [DigitChar(n)] else NatToString(n / 10) + [DigitChar(n % 10)]
  }

  /** `width` lower-case hex digits of `n` (the low `width` digits). */
  function Hex(n: nat, width: nat): (r: string)
    ensures |r| == width
    ensures forall i :: 0 <= i < |r| ==> IsDecimalDigit(r[i]) || 'a' <= r[i] <= 'f'
  {
    if width == 0 then [] else Hex(n / 16, width - 1) + [DigitChar(n % 16)]
  }

  /** `Guid.ToString()`: the "D" format, 8-4-4-4-12 lower-case hex digits. */
  function GuidToString(g: nat): (r: string)
    ensures |r| == 36
  {
    var h := Hex(g, 32);
    h[0..8] + "-" + h[8..12] + "-" + h[12..16] + "-" + h[16..20] + "-" + h[20..32]
  }

  /** `value?.ToString() ?? "null"`: the string one key component contributes. */
  function KeyComponent(v: Value): string {
    match v
    case Null => "null"
    case Int(i) => if i < 0 then "-" + NatToString(-i) else NatToString(i)
    case Str(s) => s
    case Guid(g) => GuidToString(g)
  }

  /** Numbers and Guids render without any ':' at all. */
  lemma KeyComponentHasNoColon(v: Value)
    requires !v.Str?
    ensures forall i :: 0 <= i < |KeyComponent(v)| ==> KeyComponent(v)[i] != ':'
  {
    match v
    case Null =>
    case Int(i) =>
      if i < 0 {
        var d := NatToString(-i);
        assert forall k :: 1 <= k < |"-" + d| ==> ("-" + d)[k] == d[k - 1];
      }
    case Guid(g) =>
      var h := Hex(g, 32);
      var r := GuidToString(g);
      assert forall i :: 0 <= i < |r| ==> r[i] == '-' || r[i] in h by {
        assert r == h[0..8] + "-" + h[8..12] + "-" + h[12..16] + "-" + h[16..20] + "-" + h[20..32];
      }
  }

  // ---------------------------------------------------------------------------
  // Convert.ChangeType(string, type)

  /** White space that `Int32.Parse` skips at either end. */
  predicate IsNumberWhite(c: char) {
    c == ' ' || ('\t' <= c <= '\r')
  }

  function StripNumberWhite(s: string): (r: string)
    ensures |r| <= |s|
    ensures (forall i :: 0 <= i < |s| ==> !IsNumberWhite(s[i])) ==> r == s
    decreases |s|
  {
    if s != [] && IsNumberWhite(s[0]) then StripNumberWhite(s[1..])
    else if s != [] && IsNumberWhite(s[|s| - 1]) then StripNumberWhite(s[..|s| - 1])
    else s
  }

  /** The number a non-empty run of decimal digits denotes. */
  function DigitsValue(s: string): nat
    requires forall i :: 0 <= i < |s| ==> IsDecimalDigit(s[i])
  {
    if s == [] then 0
    else
      var last := s[|s| - 1];
      assert IsDecimalDigit(last);
      10 * DigitsValue(s[..|s| - 1]) + (last as int - '0' as int)
  }

  predicate AllDigits(s: string) {
    s != [] && forall i :: 0 <= i < |s| ==> IsDecimalDigit(s[i])
  }

  /** `Int32.Parse(s, NumberStyles.Integer)`: optional white space, an optional sign,
    * one or more digits, optional white space; out of range is an error. */
  function ParseInt32(s: string): (r: Option<int>)
    ensures r.Some? ==> Int32Min <= r.value <= Int32Max
  {
    var t := StripNumberWhite(s);
    var negative := t != [] && t[0] == '-';
    var digits := if t != [] && (t[0] == '-' || t[0] == '+') then t[1..] else t;
    if !AllDigits(digits) then None
    else
      var value: int := DigitsValue(digits);
      var n := if negative then -value else value;
      if Int32Min <= n <= Int32Max then Some(n) else None
  }

  /** `Convert.ChangeType(text, type)`. A string converts to string unchanged and to
    * int by parsing; string does not convert to Guid (`Convert.ChangeType` only casts
    * through IConvertible, which has no Guid target), so that conversion always fails. */
  function ChangeType(text: string, t: ClrType): (r: Option<Value>)
    ensures t == TGuid ==> r == None
    ensures t == TString ==> r == Some(Str(text))
    ensures r.Some? && t == TInt ==> r.value.Int? && Int32Min <= r.value.i <= Int32Max
  {
    match t
    case TString => Some(Str(text))
    case TInt => (match ParseInt32(text) case Some(n) => Some(Int(n)) case None => None)
    case TGuid => None
  }

  lemma {:induction false} DigitsValueOfNatToString(n: nat)
    ensures DigitsValue(NatToString(n)) == n
    decreases n
  {
    var r := NatToString(n);
    if n < 10 {
      assert r[..|r| - 1] == [];
    } else {
      DigitsValueOfNatToString(n / 10);
      assert r[..|r| - 1] == NatToString(n / 10);
    }
  }

  /** The key component of an int converts back to the same int. */
  lemma ChangeTypeIntRoundTrip(i: int)
    requires Int32Min <= i <= Int32Max
    ensures ChangeType(KeyComponent(Int(i)), TInt) == Some(Int(i))
  {
    var s := KeyComponent(Int(i));
    var d := NatToString(if i < 0 then -i else i);
    DigitsValueOfNatToString(if i < 0 then -i else i);
    assert d[0] != '-' && d[0] != '+' && !IsNumberWhite(d[0]);
    if i < 0 {
      assert s == "-" + d;
      assert forall k :: 0 <= k < |s| ==> !IsNumberWhite(s[k]) by {
        assert forall k :: 1 <= k < |s| ==> s[k] == d[k - 1];
      }
      assert StripNumberWhite(s) == s;
      assert s[1..] == d;
    } else {
      assert forall k :: 0 <= k < |s| ==> !IsNumberWhite(s[k]);
      assert StripNumberWhite(s) == s;
    }
  }

  /** The key component of a string converts back to the same string. */
  lemma ChangeTypeStringRoundTrip(s: string)
    ensures ChangeType(KeyComponent(Str(s)), TString) == Some(Str(s))
  {
  }
}
