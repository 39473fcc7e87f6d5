/**
 * Character and string helpers shared by the repository and the front end:
 * ASCII case folding, the JavaScript `trim` white-space set, substring search,
 * and the "::" join/split used to turn composite keys into strings.
 */
module Text {

  /** ASCII lower-casing (`toLowerCase` on Latin letters). */
  function LowerChar(c: char): (r: char)
    ensures 'A' <= c <= 'Z' ==> r as int == c as int + 32
    ensures !('A' <= c <= 'Z') ==> r == c
  {
    if 'A' <= c <= 'Z' then (c as int + 32) as char else c
  }

  function Lower(s: string): (r: string)
    ensures |r| == |s|
    ensures forall i :: 0 <= i < |s| ==> r[i] == LowerChar(s[i])
  {
    if s == [] then [] else [LowerChar(s[0])] + Lower(s[1..])
  }

  /** The characters JavaScript's `String.prototype.trim` removes:
    * WhiteSpace (tab, vertical tab, form feed, space, no-break space, BOM and the
    * Unicode space separators) and LineTerminator (LF, CR, LS, PS). */
  predicate IsJsSpace(c: char) {
    c as int in JsSpaceCodes || 0x2000 <= c as int <= 0x200A
  }

  /** The code points of that set outside the range U+2000..U+200A. */
  const JsSpaceCodes: set<int> :=
    {0x09, 0x0A, 0x0B, 0x0C, 0x0D, 0x20, 0xA0, 0x1680, 0x2028, 0x2029, 0x202F, 0x205F, 0x3000, 0xFEFF}

  predicate AllSpace(s: string) {
    forall i :: 0 <= i < |s| ==> IsJsSpace(s[i])
  }

  /** The end of the run of white space that starts at `i`. */
  function SkipSpaces(s: string, i: nat): (j: nat)
    requires i <= |s|
    ensures i <= j <= |s|
    ensures forall m :: i <= m < j ==> IsJsSpace(s[m])
    ensures j < |s| ==> !IsJsSpace(s[j])
    decreases |s| - i
  {
    if i < |s| && IsJsSpace(s[i]) then SkipSpaces(s, i + 1) else i
  }

  /** The start of the run of white space that ends just before `j`. */
  function SkipSpacesBack(s: string, j: nat): (i: nat)
    requires j <= |s|
    ensures i <= j
    ensures forall m :: i <= m < j ==> IsJsSpace(s[m])
    ensures i > 0 ==> !IsJsSpace(s[i - 1])
  {
    if j > 0 && IsJsSpace(s[j - 1]) then SkipSpacesBack(s, j - 1) else j
  }

  /** `s.trim()`: the infix of `s` between its leading and its trailing white space. */
  function Trim(s: string): (r: string)
    ensures var a := SkipSpaces(s, 0);
      a + |r| <= |s| && r == s[a..a + |r|]
      && (forall m :: 0 <= m < a ==> IsJsSpace(s[m]))
      && (forall m :: a + |r| <= m < |s| ==> IsJsSpace(s[m]))
    ensures r != [] ==> !IsJsSpace(r[0]) && !IsJsSpace(r[|r| - 1])
  {
    var a := SkipSpaces(s, 0);
    var b := SkipSpacesBack(s, |s|);
    if a >= b then [] else s[a..b]
  }

  /** A string trims to "" exactly when it consists of white space only. */
  lemma TrimEmptyIffAllSpace(s: string)
    ensures Trim(s) == [] <==> AllSpace(s)
  {
    var a := SkipSpaces(s, 0);
    if AllSpace(s) {
      assert a == |s|;
    }
  }

  /** `q` occurs in `s` at position `i`. */
  predicate OccursAt(s: string, q: string, i: nat) {
    i + |q| <= |s| && s[i..i + |q|] == q
  }

  /** Some occurrence of `q` in `s` starts at or after `from`. */
  function ContainsFrom(s: string, q: string, from: nat): (b: bool)
    ensures b <==> exists i: nat :: from <= i && OccursAt(s, q, i)
    decreases |s| - from
  {
    if from + |q| > |s| then
      assert forall i: nat :: from <= i ==> !OccursAt(s, q, i);
      false
    else if s[from..from + |q|] == q then
      assert OccursAt(s, q, from);
      true
    else
      var b := ContainsFrom(s, q, from + 1);
      assert !OccursAt(s, q, from);
      assert forall i: nat :: from <= i && OccursAt(s, q, i) ==> from + 1 <= i;
      b
  }

  /** `s.includes(q)`. */
  function Contains(s: string, q: string): (b: bool)
    ensures b <==> exists i: nat :: OccursAt(s, q, i)
  {
    ContainsFrom(s, q, 0)
  }

  // ---------------------------------------------------------------------------
  // Composite-key strings: string.Join("::", parts) and key.Split("::")

  /** `s` starts with the delimiter "::". */
  predicate StartsWithDelimiter(s: string) {
    |s| >= 2 && s[0] == ':' && s[1] == ':'
  }

  /** The delimiter occurs nowhere in `s`. */
  predicate NoDelimiter(s: string) {
    forall i :: 0 <= i < |s| - 1 ==> !(s[i] == ':' && s[i + 1] == ':')
  }

  predicate EndsWithColon(s: string) {
    s != [] && s[|s| - 1] == ':'
  }

  /** The components that the "::" split gives back unchanged after the join:
    * none contains "::" and none but the last ends with ':' (a trailing ':' would
    * merge with the delimiter that follows it). */
  predicate Separable(parts: seq<string>) {
    && (forall k :: 0 <= k < |parts| ==> NoDelimiter(parts[k]))
    && (forall k :: 0 <= k < |parts| - 1 ==> !EndsWithColon(parts[k]))
  }

  /** `string.Join("::", parts)`. */
  function Join(parts: seq<string>): string {
    if parts == [] then ""
    else if |parts| == 1 then parts[0]
    else parts[0] + "::" + Join(parts[1..])
  }

  /** `s.Split("::")`: an ordinal left-to-right scan that cuts at every
    * non-overlapping occurrence of the delimiter and keeps empty components;
    * `current` is the component read so far. */
  function SplitFrom(s: string, current: string): (r: seq<string>)
    ensures |r| >= 1
    decreases |s|
  {
    if s == [] then [current]
    else if StartsWithDelimiter(s) then [current] + SplitFrom(s[2..], "")
    else SplitFrom(s[1..], current + [s[0]])
  }

  function Split(s: string): (r: seq<string>)
    ensures |r| >= 1
  {
    SplitFrom(s, "")
  }

  /** Reading a prefix that holds no delimiter start only extends the current component. */
  lemma {:induction false} SplitFromSkips(c: string, rest: string, current: string)
    requires forall j :: 0 <= j < |c| ==> !StartsWithDelimiter((c + rest)[j..])
    ensures SplitFrom(c + rest, current) == SplitFrom(rest, current + c)
    decreases |c|
  {
    if c != [] {
      assert !StartsWithDelimiter((c + rest)[0..]);
      assert (c + rest)[0..] == c + rest;
      assert (c + rest)[0] == c[0];
      assert (c + rest)[1..] == c[1..] + rest;
      forall j | 0 <= j < |c[1..]| ensures !StartsWithDelimiter((c[1..] + rest)[j..]) {
        assert (c + rest)[j + 1..] == (c[1..] + rest)[j..];
      }
      SplitFromSkips(c[1..], rest, current + [c[0]]);
      assert current + [c[0]] + c[1..] == current + c;
    } else {
      assert c + rest == rest && current + c == current;
    }
  }

  /** A component with no delimiter, followed by the delimiter (or by nothing),
    * is read without a cut inside it. */
  lemma NoCutInside(c: string, rest: string)
    requires NoDelimiter(c)
    requires rest == [] || !EndsWithColon(c)
    ensures forall j :: 0 <= j < |c| ==> !StartsWithDelimiter((c + rest)[j..])
  {
    forall j | 0 <= j < |c| ensures !StartsWithDelimiter((c + rest)[j..]) {
      var t := (c + rest)[j..];
      assert |t| >= 1 && t[0] == c[j];
      if j + 1 < |c| {
        assert t[1] == c[j + 1];
      } else if rest != [] {
        assert c[j] == c[|c| - 1];
      }
    }
  }

  /** Round trip: splitting the join gives the components back when they are separable. */
  lemma {:induction false} SplitJoin(parts: seq<string>)
    requires |parts| >= 1 && Separable(parts)
    ensures Split(Join(parts)) == parts
    decreases |parts|
  {
    var c := parts[0];
    if |parts| == 1 {
      NoCutInside(c, []);
      SplitFromSkips(c, [], "");
      assert c + [] == c && "" + c == c;
    } else {
      var tail := Join(parts[1..]);
      NoCutInside(c, "::" + tail);
      SplitFromSkips(c, "::" + tail, "");
      assert c + "::" + tail == c + ("::" + tail);
      assert "" + c == c;
      assert ("::" + tail)[2..] == tail;
      assert Separable(parts[1..]) by {
        forall k | 0 <= k < |parts[1..]| ensures NoDelimiter(parts[1..][k]) { assert parts[1..][k] == parts[k + 1]; }
        forall k | 0 <= k < |parts[1..]| - 1 ensures !EndsWithColon(parts[1..][k]) { assert parts[1..][k] == parts[k + 1]; }
      }
      SplitJoin(parts[1..]);
      assert parts == [c] + parts[1..];
    }
  }

  /** Every component the split produces is separable. */
  lemma {:induction false} SplitFromSeparable(s: string, current: string)
    requires NoDelimiter(current)
    requires !(EndsWithColon(current) && s != [] && s[0] == ':')
    ensures Separable(SplitFrom(s, current))
    decreases |s|
  {
    if s == [] {
    } else if StartsWithDelimiter(s) {
      SplitFromSeparable(s[2..], "");
      var r := SplitFrom(s[2..], "");
      assert SplitFrom(s, current) == [current] + r;
      forall k | 0 <= k < |[current] + r| ensures NoDelimiter(([current] + r)[k]) {
        if k > 0 { assert ([current] + r)[k] == r[k - 1]; }
      }
      forall k | 0 <= k < |[current] + r| - 1 ensures !EndsWithColon(([current] + r)[k]) {
        if k > 0 { assert ([current] + r)[k] == r[k - 1]; }
      }
    } else {
      var next := current + [s[0]];
      assert NoDelimiter(next) by {
        forall i | 0 <= i < |next| - 1 ensures !(next[i] == ':' && next[i + 1] == ':') {
          if i == |next| - 2 {
            assert next[i] == current[|current| - 1] && next[i + 1] == s[0];
          } else {
            assert next[i] == current[i] && next[i + 1] == current[i + 1];
          }
        }
      }
      assert s[1..] != [] ==> s[1..][0] == s[1];
      assert EndsWithColon(next) ==> s[0] == ':';
      SplitFromSeparable(s[1..], next);
    }
  }

  /** The key-string round trip holds exactly for separable components: a component
    * containing "::", or a non-last component ending with ':', is not recovered. */
  lemma SplitJoinIff(parts: seq<string>)
    requires |parts| >= 1
    ensures Split(Join(parts)) == parts <==> Separable(parts)
  {
    if Separable(parts) {
      SplitJoin(parts);
    }
    SplitFromSeparable(Join(parts), "");
  }

  /** Join is not injective: distinct component lists can give one key string. */
  lemma JoinCollides()
    ensures Join(["a::b"]) == Join(["a", "b"])
    ensures Join(["a:", "b"]) == Join(["a", ":b"])
  {
  }
}
