/** String and number helpers shared by the server and the client model:
    substring search (Python's `in`, JavaScript's `includes`), ASCII
    lower-casing, and decimal rendering and parsing of natural numbers. */
module Text {

  datatype Option<+T> = None | Some(value: T) {
    function GetOr(default: T): T
    {
      if Some? then value else default
    }
  }

  /** A key of a Python or JSON dictionary: left out, present with the
      value `None` (JSON `null`), or present with a value. */
  datatype Field<+T> = Absent | Null | Present(value: T) {
    /** `d.get(key, default)`: the default for a missing key, and `None`
        for a key whose value is `None`. */
    function Get(default: T): Option<T>
    {
      match this
      case Absent => Some(default)
      case Null => None
      case Present(v) => Some(v)
    }
  }

  /** `sub` occurs in `s` starting at position `i`. */
  predicate OccursAt(s: string, sub: string, i: nat)
  {
    i + |sub| <= |s| && s[i..i + |sub|] == sub
  }

  /** `sub in s` (Python) or `s.includes(sub)` (JavaScript). */
  predicate Contains(s: string, sub: string)
    decreases |s|
  {
    sub <= s || (|s| > 0 && Contains(s[1..], sub))
  }

  lemma {:induction false} ContainsIffOccurs(s: string, sub: string)
    ensures Contains(s, sub) <==> exists i: nat :: OccursAt(s, sub, i)
    decreases |s|
  {
    if sub <= s {
      assert OccursAt(s, sub, 0);
    } else if |s| > 0 {
      ContainsIffOccurs(s[1..], sub);
      if Contains(s[1..], sub) {
        var i: nat :| OccursAt(s[1..], sub, i);
        assert s[i + 1..i + 1 + |sub|] == s[1..][i..i + |sub|];
        assert OccursAt(s, sub, i + 1);
      }
      if i: nat :| OccursAt(s, sub, i) {
        assert i != 0;
        assert s[1..][i - 1..i - 1 + |sub|] == s[i..i + |sub|];
        assert OccursAt(s[1..], sub, i - 1);
      }
    }
  }

  /** What a suffix of the text contains, the text contains. */
  lemma {:induction false} ContainsDrop(s: string, sub: string, k: nat)
    requires k <= |s| && Contains(s[k..], sub)
    ensures Contains(s, sub)
    decreases k
  {
    if k > 0 {
      assert s[1..][k - 1..] == s[k..];
      ContainsDrop(s[1..], sub, k - 1);
    }
  }

  /** The text contains `sub` inside its left or right part. */
  lemma ContainsInConcat(a: string, b: string, sub: string)
    requires Contains(a, sub) || Contains(b, sub)
    ensures Contains(a + b, sub)
  {
    ContainsIffOccurs(a, sub);
    ContainsIffOccurs(b, sub);
    ContainsIffOccurs(a + b, sub);
    if Contains(a, sub) {
      var i: nat :| OccursAt(a, sub, i);
      assert (a + b)[i..i + |sub|] == a[i..i + |sub|];
      assert OccursAt(a + b, sub, i);
    } else {
      var i: nat :| OccursAt(b, sub, i);
      assert (a + b)[|a| + i..|a| + i + |sub|] == b[i..i + |sub|];
      assert OccursAt(a + b, sub, |a| + i);
    }
  }

  /** ASCII lower-casing of one character; other characters are unchanged. */
  function LowerChar(c: char): char
  {
    if 'A' <= c <= 'Z' then (c as int + 32) as char else c
  }

  /** `s.lower()`, restricted to the ASCII letters. */
  function Lower(s: string): (r: string)
    ensures |r| == |s|
  {
    if s == [] then [] else [LowerChar(s[0])] + Lower(s[1..])
  }

  /** Lower-casing works character by character. */
  lemma {:induction false} LowerIndex(s: string)
    ensures forall i :: 0 <= i < |s| ==> Lower(s)[i] == LowerChar(s[i])
    decreases |s|
  {
    if s != [] {
      LowerIndex(s[1..]);
      assert forall i :: 1 <= i < |s| ==> Lower(s)[i] == Lower(s[1..])[i - 1];
    }
  }

  predicate NoUpper(s: string)
  {
    forall i :: 0 <= i < |s| ==> !('A' <= s[i] <= 'Z')
  }

  /** Lower-casing leaves a text without ASCII capitals alone. */
  lemma {:induction false} LowerNoUpper(s: string)
    requires NoUpper(s)
    ensures Lower(s) == s
    decreases |s|
  {
    if s != [] {
      LowerNoUpper(s[1..]);
      assert s == [s[0]] + s[1..];
    }
  }

  /** A text that lower-casing leaves alone still occurs after the text
      around it is lower-cased: `sub in s` implies `sub in s.lower()`. */
  lemma {:induction false} ContainsLower(s: string, sub: string)
    requires Lower(sub) == sub
    requires Contains(s, sub)
    ensures Contains(Lower(s), sub)
    decreases |s|
  {
    if sub <= s {
      LowerIndex(s);
      LowerIndex(sub);
      assert Lower(s)[..|sub|] == Lower(sub);
    } else {
      assert Lower(s)[1..] == Lower(s[1..]);
      ContainsLower(s[1..], sub);
    }
  }

  predicate IsDigit(c: char)
  {
    '0' <= c <= '9'
  }

  function DigitChar(d: nat): (c: char)
    requires d < 10
    ensures IsDigit(c) && c as int - 48 == d
  {
    (48 + d) as char
  }

  function DigitValue(c: char): nat
    requires IsDigit(c)
  {
    c as int - 48
  }

  /** Nonempty and made of decimal digits only. */
  predicate IsDecimal(s: string)
  {
    |s| > 0 && forall i :: 0 <= i < |s| ==> IsDigit(s[i])
  }

  /** The decimal rendering of `n`, as `str(n)` and `n.toString()` produce it. */
  function NatToString(n: nat): string
    decreases n
  {
    (if n < 10 then "" else NatToString(n / 10)) + [DigitChar(n % 10)]
  }

  /** The value of a string of decimal digits (most significant first). */
  function DecimalValue(s: string): nat
    requires forall i :: 0 <= i < |s| ==> IsDigit(s[i])
    decreases |s|
  {
    if s == [] then 0 else DecimalValue(s[..|s| - 1]) * 10 + DigitValue(s[|s| - 1])
  }

  /** Rendering a number in decimal and reading it back gives the number. */
  lemma {:induction false} DecimalRoundTrip(n: nat)
    ensures IsDecimal(NatToString(n))
    ensures DecimalValue(NatToString(n)) == n
    decreases n
  {
    var s := NatToString(n);
    var d := DigitChar(n % 10);
    if n >= 10 {
      var t := NatToString(n / 10);
      DecimalRoundTrip(n / 10);
      assert s == t + [d];
      assert s[..|s| - 1] == t;
      DecimalStep(s, t, d, n);
    } else {
      assert s == [d];
      assert s[..0] == [];
    }
  }

  lemma DecimalStep(s: string, t: string, d: char, n: nat)
    requires n >= 10 && IsDecimal(t) && DecimalValue(t) == n / 10
    requires d == DigitChar(n % 10) && s == t + [d]
    ensures IsDecimal(s) && DecimalValue(s) == n
  {
    assert s[..|s| - 1] == t;
    assert DecimalValue(s) == (n / 10) * 10 + n % 10;
  }

  /** `n.toString().padStart(2, '0')`: a single digit gets a leading zero. */
  function Pad2(n: nat): (r: string)
    requires n < 60
    ensures |r| == 2 && IsDecimal(r) && DecimalValue(r) == n
  {
    Pad2Digits(n);
    if n < 10 then "0" + NatToString(n) else NatToString(n)
  }

  lemma Pad2Digits(n: nat)
    requires n < 60
    ensures var r := if n < 10 then "0" + NatToString(n) else NatToString(n);
      r == [DigitChar(n / 10), DigitChar(n % 10)] && IsDecimal(r) && DecimalValue(r) == n
  {
    var a, b := DigitChar(n / 10), DigitChar(n % 10);
    if n >= 10 {
      assert NatToString(n / 10) == [a];
    }
    var r := [a, b];
    assert r[..1] == [a] && [a][..0] == [];
    assert DecimalValue([a]) == DigitValue(a);
    assert DecimalValue(r) == DigitValue(a) * 10 + DigitValue(b);
  }

  /** The position of the last `c` in `s`, if any. */
  function LastIndex(s: string, c: char): (r: Option<nat>)
    ensures r.Some? ==> (r.value < |s| && s[r.value] == c &&
                         forall k :: r.value < k < |s| ==> s[k] != c)
    ensures r.None? ==> forall k :: 0 <= k < |s| ==> s[k] != c
    decreases |s|
  {
    if s == [] then None
    else if s[|s| - 1] == c then Some(|s| - 1)
    else LastIndex(s[..|s| - 1], c)
  }

  /** A `c` at `i` with none after it is the last one. */
  lemma LastIndexAt(s: string, c: char, i: nat)
    requires i < |s| && s[i] == c
    requires forall k :: i < k < |s| ==> s[k] != c
    ensures LastIndex(s, c) == Some(i)
  {
  }

  /** `s.split(sep)` in Python and JavaScript: the pieces between the
      occurrences of `sep`, found left to right without overlap. */
  function Split(s: string, sep: string): (r: seq<string>)
    requires |sep| > 0
    ensures |r| >= 1
    decreases |s|
  {
    if sep <= s then [""] + Split(s[|sep|..], sep)
    else if s == [] then [""]
    else
      var rest := Split(s[1..], sep);
      [[s[0]] + rest[0]] + rest[1..]
  }

  /** `sep.join(pieces)`. */
  function Join(pieces: seq<string>, sep: string): string
    requires |pieces| >= 1
    decreases |pieces|
  {
    if |pieces| == 1 then pieces[0] else pieces[0] + sep + Join(pieces[1..], sep)
  }

  /** Regrouping a concatenation, as a fact to call where the solver would
      otherwise compare sequences element by element. */
  lemma AppendAssoc<T>(a: seq<T>, b: seq<T>, c: seq<T>)
    ensures a + (b + c) == (a + b) + c
  {
  }

  lemma AppendEmpty<T>(s: seq<T>)
    ensures [] + s == s && s + [] == s
  {
  }
}

/** Facts about `Split` and `Join`: they are inverse, and the pieces avoid the separator. */
module Splitting {
  import opened Text

  /** Splitting and joining again gives back the text. */
  lemma {:induction false} SplitJoin(s: string, sep: string)
    requires |sep| > 0
    ensures Join(Split(s, sep), sep) == s
    decreases |s|
  {
    if sep <= s {
      SplitJoin(s[|sep|..], sep);
      SplitJoinAtSep(s, sep);
    } else if s != [] {
      SplitJoin(s[1..], sep);
      SplitJoinAtChar(s, sep);
    }
  }

  lemma JoinCons(x: string, tail: seq<string>, sep: string)
    requires |tail| >= 1
    ensures Join([x] + tail, sep) == x + sep + Join(tail, sep)
  {
    assert ([x] + tail)[1..] == tail;
  }

  lemma SplitJoinAtSep(s: string, sep: string)
    requires |sep| > 0 && sep <= s
    requires Join(Split(s[|sep|..], sep), sep) == s[|sep|..]
    ensures Join(Split(s, sep), sep) == s
  {
    var tail := Split(s[|sep|..], sep);
    SplitAtSep(s, sep);
    JoinCons("", tail, sep);
    PrefixThenRest(s, sep);
  }

  lemma SplitAtSep(s: string, sep: string)
    requires |sep| > 0 && sep <= s
    ensures Split(s, sep) == [""] + Split(s[|sep|..], sep)
  {
  }

  lemma PrefixThenRest(s: string, p: string)
    requires p <= s
    ensures "" + p + s[|p|..] == s
  {
  }

  lemma SplitJoinAtChar(s: string, sep: string)
    requires |sep| > 0 && !(sep <= s) && s != []
    requires Join(Split(s[1..], sep), sep) == s[1..]
    ensures Join(Split(s, sep), sep) == s
  {
    var rest := Split(s[1..], sep);
    var first := [s[0]] + rest[0];
    assert Split(s, sep) == [first] + rest[1..];
    ConsHead(s);
    if |rest| == 1 {
      assert [first] + rest[1..] == [first];
    } else {
      JoinCons(rest[0], rest[1..], sep);
      assert [rest[0]] + rest[1..] == rest;
      JoinCons(first, rest[1..], sep);
      Regroup([s[0]], rest[0], sep, Join(rest[1..], sep));
    }
  }

  lemma ConsHead(s: string)
    requires s != []
    ensures [s[0]] + s[1..] == s
  {
  }

  lemma Regroup(a: string, b: string, c: string, d: string)
    ensures a + b + c + d == a + (b + c + d)
  {
  }

  /** No piece contains the separator, and the first piece is a prefix of the text. */
  lemma {:induction false} SplitPieces(s: string, sep: string)
    requires |sep| > 0
    ensures Split(s, sep)[0] <= s
    ensures forall i :: 0 <= i < |Split(s, sep)| ==> !Contains(Split(s, sep)[i], sep)
    decreases |s|
  {
    var r := Split(s, sep);
    if sep <= s {
      SplitPieces(s[|sep|..], sep);
      assert forall i :: 1 <= i < |r| ==> r[i] == Split(s[|sep|..], sep)[i - 1];
      assert !Contains("", sep);
    } else if s != [] {
      var rest := Split(s[1..], sep);
      SplitPieces(s[1..], sep);
      var first := [s[0]] + rest[0];
      assert first <= s;
      assert !(sep <= first);
      assert first[1..] == rest[0];
      assert !Contains(first, sep);
      assert forall i :: 1 <= i < |r| ==> r[i] == rest[i];
    }
  }

  /** A text without the separator is one piece. */
  lemma {:induction false} SplitWithout(s: string, sep: string)
    requires |sep| > 0 && !Contains(s, sep)
    ensures Split(s, sep) == [s]
    decreases |s|
  {
    if s != [] {
      SplitWithout(s[1..], sep);
      assert [s[0]] + s[1..] == s;
    }
  }

  /** Joining more than one piece puts the separator before the last piece. */
  lemma {:induction false} JoinLast(pieces: seq<string>, sep: string)
    requires |pieces| >= 2
    ensures Join(pieces, sep) == Join(pieces[..|pieces| - 1], sep) + sep + pieces[|pieces| - 1]
    decreases |pieces|
  {
    var n := |pieces|;
    if n > 2 {
      JoinLast(pieces[1..], sep);
      assert pieces[1..][..n - 2] == pieces[..n - 1][1..];
      assert pieces[1..][n - 2] == pieces[n - 1];
      JoinCons(pieces[0], pieces[1..n - 1], sep);
      assert [pieces[0]] + pieces[1..n - 1] == pieces[..n - 1];
      Regroup(pieces[0], sep, Join(pieces[1..n - 1], sep) + sep, pieces[n - 1]);
    } else {
      assert pieces[..1] == [pieces[0]];
    }
  }

  /** The text splits into more than one piece exactly when it contains the separator. */
  lemma SplitCount(s: string, sep: string)
    requires |sep| > 0
    ensures |Split(s, sep)| >= 2 <==> Contains(s, sep)
  {
    var r := Split(s, sep);
    SplitJoin(s, sep);
    SplitPieces(s, sep);
    if |r| == 1 {
      assert !Contains(r[0], sep);
    }
    if !Contains(s, sep) {
      SplitWithout(s, sep);
    }
  }

  /** The first piece is the whole text, or it is followed by the separator. */
  lemma SplitFirst(s: string, sep: string)
    requires |sep| > 0
    ensures var r := Split(s, sep);
      if Contains(s, sep) then r[0] + sep <= s else r[0] == s
  {
    var r := Split(s, sep);
    SplitCount(s, sep);
    SplitJoin(s, sep);
    if |r| >= 2 {
      JoinCons(r[0], r[1..], sep);
      assert [r[0]] + r[1..] == r;
      DropTail(r[0] + sep, Join(r[1..], sep));
    }
  }

  lemma DropTail(p: string, x: string)
    ensures p <= p + x
  {
    assert (p + x)[..|p|] == p;
  }

  /** The last piece does not contain the separator, and a text containing
      the separator is what precedes it, the separator, and the last piece. */
  lemma SplitLast(s: string, sep: string)
    requires |sep| > 0 && Contains(s, sep)
    ensures var r := Split(s, sep);
      |r| >= 2 && !Contains(r[|r| - 1], sep) &&
      s == Join(r[..|r| - 1], sep) + sep + r[|r| - 1]
  {
    var r := Split(s, sep);
    SplitCount(s, sep);
    SplitPieces(s, sep);
    SplitJoin(s, sep);
    JoinLast(r, sep);
  }
}
