/**
 * The few JavaScript string and number primitives the stairmap code relies on:
 * `trim`, `indexOf`, `slice`, `split`, `Number(...)` and `String(...)`,
 * stated over Dafny strings (sequences of characters).
 */
module JsText {

  /** The characters `String.prototype.trim` (and `Number`) strip at either end:
      ECMAScript's WhiteSpace (tab, vertical tab, form feed, the byte-order
      mark and every space separator of Unicode category Zs) and its
      LineTerminator (line feed, carriage return, line and paragraph separator). */
  predicate IsWhitespace(c: char) {
    || c == '\t' || c == '\U{B}' || c == '\U{C}' || c == '\U{FEFF}'
    || c == '\n' || c == '\r' || c == '\U{2028}' || c == '\U{2029}'
    || IsSpaceSeparator(c)
  }

  /** Neither end of `s` is white space (true of the empty string). */
  predicate VisibleEnds(s: string) {
    s == [] || (!IsWhitespace(s[0]) && !IsWhitespace(s[|s| - 1]))
  }

  /** Unicode category Zs: space, no-break space, ogham space mark, the
      en quad to hair space block, narrow no-break space, medium mathematical
      space and ideographic space. */
  predicate IsSpaceSeparator(c: char) {
    || c == ' ' || c == '\U{A0}' || c == '\U{1680}'
    || ('\U{2000}' <= c <= '\U{200A}')
    || c == '\U{202F}' || c == '\U{205F}' || c == '\U{3000}'
  }

  predicate AllWhitespace(s: string) {
    forall i :: 0 <= i < |s| ==> IsWhitespace(s[i])
  }

  /** `s` with its leading white space removed. */
  function TrimStart(s: string): (r: string)
    ensures |r| <= |s| && r == s[|s| - |r|..]
    ensures AllWhitespace(s[..|s| - |r|])
    ensures r == [] || !IsWhitespace(r[0])
  {
    if s != [] && IsWhitespace(s[0]) then
      var r := TrimStart(s[1..]);
      DropLeadingWhitespace(s, r);
      r
    else s
  }

  /** Cutting one more white-space character in front keeps `r` a suffix behind white space. */
  lemma DropLeadingWhitespace(s: string, r: string)
    requires s != [] && IsWhitespace(s[0])
    requires |r| <= |s| - 1 && r == s[1..][|s| - 1 - |r|..] && AllWhitespace(s[1..][..|s| - 1 - |r|])
    ensures r == s[|s| - |r|..] && AllWhitespace(s[..|s| - |r|])
  {
    assert s[..|s| - |r|] == [s[0]] + s[1..][..|s| - 1 - |r|];
  }

  /** `s` with its trailing white space removed. */
  function TrimEnd(s: string): (r: string)
    ensures |r| <= |s| && r == s[..|r|]
    ensures AllWhitespace(s[|r|..])
    ensures r == [] || !IsWhitespace(r[|r| - 1])
  {
    if s != [] && IsWhitespace(s[|s| - 1]) then
      var r := TrimEnd(s[..|s| - 1]);
      DropTrailingWhitespace(s, r);
      r
    else s
  }

  /** Cutting one more white-space character behind keeps `r` a prefix before white space. */
  lemma DropTrailingWhitespace(s: string, r: string)
    requires s != [] && IsWhitespace(s[|s| - 1])
    requires |r| <= |s| - 1 && r == s[..|s| - 1][..|r|] && AllWhitespace(s[..|s| - 1][|r|..])
    ensures r == s[..|r|] && AllWhitespace(s[|r|..])
  {
    assert s[|r|..] == s[..|s| - 1][|r|..] + [s[|s| - 1]];
  }

  /** `r` sits in `s` at offset `i` with only white space before and after it. */
  predicate AmidWhitespace(s: string, r: string, i: int) {
    && 0 <= i <= |s| - |r|
    && r == s[i..i + |r|]
    && AllWhitespace(s[..i])
    && AllWhitespace(s[i + |r|..])
  }

  /** `s.trim()`: the longest infix of `s` that neither starts nor ends with
      white space, once only white space has been cut from both ends. */
  function Trim(s: string): (r: string)
    ensures VisibleEnds(r)
    ensures exists i :: AmidWhitespace(s, r, i)
  {
    TrimStartThenEnd(s);
    TrimEnd(TrimStart(s))
  }

  /** Cutting white space in front and then behind leaves an infix amid white
      space that has white space at neither end. */
  lemma TrimStartThenEnd(s: string)
    ensures var r := TrimEnd(TrimStart(s));
            && (r == [] || (!IsWhitespace(r[0]) && !IsWhitespace(r[|r| - 1])))
            && AmidWhitespace(s, r, |s| - |TrimStart(s)|)
  {
    var t := TrimStart(s);
    var r := TrimEnd(t);
    PrefixOfSuffix(s, t, r);
    PrefixEnds(t, r);
  }

  /** A prefix of a string that does not start with white space, itself not
      ending with white space, has white space at neither end. */
  lemma PrefixEnds(t: string, r: string)
    requires t == [] || !IsWhitespace(t[0])
    requires |r| <= |t| && r == t[..|r|]
    requires r == [] || !IsWhitespace(r[|r| - 1])
    ensures r == [] || (!IsWhitespace(r[0]) && !IsWhitespace(r[|r| - 1]))
  {
    if r != [] {
      assert r[0] == t[0];
    }
  }

  /** A prefix `r` of a suffix `t` of `s`, each cut off by white space only, sits amid white space in `s`. */
  lemma PrefixOfSuffix(s: string, t: string, r: string)
    requires |t| <= |s| && t == s[|s| - |t|..] && AllWhitespace(s[..|s| - |t|])
    requires |r| <= |t| && r == t[..|r|] && AllWhitespace(t[|r|..])
    ensures AmidWhitespace(s, r, |s| - |t|)
  {
    var i := |s| - |t|;
    assert s[i..i + |r|] == t[..|r|];
    assert s[i + |r|..] == t[|r|..];
  }

  /** Trimming a string that has no white space at either end leaves it as it is. */
  lemma TrimUntrimmed(s: string)
    requires s == [] || (!IsWhitespace(s[0]) && !IsWhitespace(s[|s| - 1]))
    ensures Trim(s) == s
  {
    assert TrimStart(s) == s;
  }

  /** Every character of the trimmed string is a character of the string. */
  lemma TrimWithin(s: string)
    ensures forall c :: c in Trim(s) ==> c in s
  {
    var r := Trim(s);
    var i :| AmidWhitespace(s, r, i);
    forall c | c in r
      ensures c in s
    {
      var k :| 0 <= k < |r| && r[k] == c;
      assert s[i + k] == c;
    }
  }

  /** Only white space is cut: every visible character stays in the trimmed string. */
  lemma TrimKeepsVisible(s: string)
    ensures forall k :: 0 <= k < |s| && !IsWhitespace(s[k]) ==> s[k] in Trim(s)
  {
    var r := Trim(s);
    var i :| AmidWhitespace(s, r, i);
    forall k | 0 <= k < |s| && !IsWhitespace(s[k])
      ensures s[k] in r
    {
      VisibleInInfix(s, r, i, k);
    }
  }

  /** A visible character of `s` lies in the part between its white-space ends. */
  lemma VisibleInInfix(s: string, r: string, i: int, k: int)
    requires AmidWhitespace(s, r, i) && 0 <= k < |s| && !IsWhitespace(s[k])
    ensures s[k] in r
  {
    if i <= k < i + |r| {
      assert r[k - i] == s[k];
    }
  }

  /** A blank string trims to the empty string. */
  lemma TrimBlank(s: string)
    ensures AllWhitespace(s) ==> Trim(s) == []
  {
    var r := Trim(s);
    var i :| AmidWhitespace(s, r, i);
  }

  /** Trimming twice is trimming once. */
  lemma TrimIdempotent(s: string)
    ensures Trim(Trim(s)) == Trim(s)
  {
    var r := Trim(s);
    assert r == [] || (!IsWhitespace(r[0]) && !IsWhitespace(r[|r| - 1]));
    TrimUntrimmed(r);
  }

  /** Space separators such as the ideographic space U+3000 are trimmed like
      any other white space in front: `"\u3000a".trim()` is `"a"`. */
  lemma TrimLeadingSpaceSeparator(front: char, s: string)
    requires IsSpaceSeparator(front)
    requires s == [] || (!IsWhitespace(s[0]) && !IsWhitespace(s[|s| - 1]))
    ensures Trim([front] + s) == s
  {
    assert TrimStart([front] + s) == s by {
      assert ([front] + s)[1..] == s;
      assert TrimStart(s) == s;
    }
    assert TrimEnd(s) == s;
  }

  /** ... and behind: `"a\u3000".trim()` is `"a"`. */
  lemma TrimTrailingSpaceSeparator(s: string, back: char)
    requires IsSpaceSeparator(back)
    requires s == [] || (!IsWhitespace(s[0]) && !IsWhitespace(s[|s| - 1]))
    ensures Trim(s + [back]) == s
  {
    var t := s + [back];
    assert TrimStart(t) == if s == [] then [] else t by {
      if s == [] {
        assert t[1..] == [];
      } else {
        assert t[0] == s[0];
      }
    }
    assert TrimEnd(t) == s by {
      assert t[..|t| - 1] == s;
      assert TrimEnd(s) == s;
    }
  }

  /** `s.indexOf(c)`: the first position of `c` in `s`, or -1. */
  function IndexOf(s: string, c: char): (r: int)
    ensures -1 <= r < |s|
    ensures r == -1 <==> c !in s
    ensures r >= 0 ==> s[r] == c && c !in s[..r]
  {
    if s == [] then -1
    else if s[0] == c then 0
    else
      var k := IndexOf(s[1..], c);
      if k == -1 then -1
      else
        assert s[..k + 1] == [s[0]] + s[1..][..k];
        k + 1
  }

  /** `s.slice(0, end)`: a negative `end` counts from the back, and the result is clamped to `s`. */
  function SliceTo(s: string, end: int): (r: string)
    ensures |r| <= |s| && r == s[..|r|]
    ensures 0 <= end <= |s| ==> |r| == end
    ensures -|s| <= end < 0 ==> |r| == |s| + end
    ensures end > |s| ==> r == s
    ensures end < -|s| ==> r == []
  {
    if end < 0 then s[..if |s| + end < 0 then 0 else |s| + end]
    else s[..if end > |s| then |s| else end]
  }

  /** `s.slice(start)`: a negative `start` counts from the back, and the result is clamped to `s`. */
  function SliceFrom(s: string, start: int): (r: string)
    ensures |r| <= |s| && r == s[|s| - |r|..]
    ensures 0 <= start <= |s| ==> |r| == |s| - start
    ensures -|s| <= start < 0 ==> |r| == -start
    ensures start > |s| ==> r == []
    ensures start < -|s| ==> r == s
  {
    if start < 0 then s[if |s| + start < 0 then 0 else |s| + start..]
    else s[if start > |s| then |s| else start..]
  }

  /** Slicing up to and from the same position cuts a string in two. */
  lemma SliceSplit(s: string, k: int)
    ensures SliceTo(s, k) + SliceFrom(s, k) == s
  {
    var m := if k < 0 then (if |s| + k < 0 then 0 else |s| + k) else (if k > |s| then |s| else k);
    assert SliceTo(s, k) == s[..m] && SliceFrom(s, k) == s[m..];
  }

  /** `s.split(sep)` for a one-character separator: the pieces between separators, at least one. */
  function Split(s: string, sep: char): (parts: seq<string>)
    ensures |parts| >= 1
    ensures forall p :: p in parts ==> sep !in p
    decreases |s|
  {
    var i := IndexOf(s, sep);
    if i < 0 then [s] else [s[..i]] + Split(s[i + 1..], sep)
  }

  /** `parts.join(sep)`: the inverse of `Split`. */
  function Join(parts: seq<string>, sep: char): string {
    if parts == [] then ""
    else if |parts| == 1 then parts[0]
    else parts[0] + [sep] + Join(parts[1..], sep)
  }

  /** Joining the pieces of a split gives back the original string. */
  lemma {:induction false} JoinSplit(s: string, sep: char)
    ensures Join(Split(s, sep), sep) == s
    decreases |s|
  {
    var i := IndexOf(s, sep);
    if i >= 0 {
      var rest := s[i + 1..];
      var tail := Split(rest, sep);
      JoinSplit(rest, sep);
      JoinCons(s[..i], tail, sep);
      assert s == s[..i] + [sep] + rest;
    }
  }

  /** Joining a first piece in front of at least one more piece puts the separator between them. */
  lemma JoinCons(head: string, tail: seq<string>, sep: char)
    requires |tail| >= 1
    ensures Join([head] + tail, sep) == head + [sep] + Join(tail, sep)
  {
    assert ([head] + tail)[1..] == tail;
  }

  /** The first separator of `p + [sep] + rest` is the one after `p` when `p` has none. */
  lemma IndexOfAfterPiece(p: string, sep: char, rest: string)
    requires sep !in p
    ensures IndexOf(p + [sep] + rest, sep) == |p|
  {
    var s := p + [sep] + rest;
    var r := IndexOf(s, sep);
    assert s[|p|] == sep;
  }

  /** A separator-free piece followed by the separator splits off as the first piece. */
  lemma SplitAfterPiece(p: string, sep: char, rest: string)
    requires sep !in p
    ensures Split(p + [sep] + rest, sep) == [p] + Split(rest, sep)
  {
    var s := p + [sep] + rest;
    IndexOfAfterPiece(p, sep, rest);
    assert s[..|p|] == p && s[|p| + 1..] == rest;
  }

  /** A string that starts with the separator splits off an empty first piece. */
  lemma SplitLeadingSeparator(sep: char, rest: string)
    ensures Split([sep] + rest, sep) == [[]] + Split(rest, sep)
  {
    var s := [sep] + rest;
    assert IndexOf(s, sep) == 0;
    assert s[1..] == rest;
  }

  /** Splitting a join of separator-free pieces gives back the pieces. */
  lemma {:induction false} SplitJoin(parts: seq<string>, sep: char)
    requires |parts| >= 1
    requires forall p :: p in parts ==> sep !in p
    ensures Split(Join(parts, sep), sep) == parts
  {
    if |parts| == 1 {
      assert IndexOf(parts[0], sep) == -1;
    } else {
      var rest := Join(parts[1..], sep);
      IndexOfAfterPiece(parts[0], sep, rest);
      SplitJoin(parts[1..], sep);
      var s := parts[0] + [sep] + rest;
      assert s[..|parts[0]|] == parts[0];
      assert s[|parts[0]| + 1..] == rest;
    }
  }

  /** A JavaScript number as far as this model computes one: integers, or NaN. */
  datatype JsNumber = Finite(value: int) | NaN

  predicate IsDigit(c: char) {
    '0' <= c <= '9'
  }

  predicate IsDigits(s: string) {
    forall i :: 0 <= i < |s| ==> IsDigit(s[i])
  }

  /** The value of a string of decimal digits (0 for the empty string). */
  function DigitsValue(s: string): nat
    requires IsDigits(s)
  {
    if s == [] then 0 else DigitsValue(s[..|s| - 1]) * 10 + (s[|s| - 1] as int - '0' as int)
  }

  /** `Number(s)` on the strings this model computes: after trimming, a blank
      string is 0 and a string of decimal digits is its value; every other
      string is taken to be NaN. */
  function ToNumber(s: string): (n: JsNumber)
    ensures n.Finite? ==> n.value >= 0
    ensures AllWhitespace(s) ==> n == Finite(0)
    ensures forall i :: 0 <= i < |s| && !IsWhitespace(s[i]) && !IsDigit(s[i]) ==> n == NaN
  {
    var t := Trim(s);
    TrimBlank(s);
    TrimKeepsVisible(s);
    if IsDigits(t) then Finite(DigitsValue(t)) else NaN
  }

  /** `Number(s)` is the value of the digits when the trimmed string is all
      decimal digits (0 when it is empty), and NaN otherwise. */
  lemma ToNumberValue(s: string)
    ensures IsDigits(Trim(s)) ==> ToNumber(s) == Finite(DigitsValue(Trim(s)))
    ensures !IsDigits(Trim(s)) ==> ToNumber(s) == NaN
  {
  }

  /** A space before the digits does not change the number read. */
  lemma ToNumberAfterSpace(space: char, digits: string)
    requires IsSpaceSeparator(space) && IsDigits(digits)
    ensures ToNumber([space] + digits) == Finite(DigitsValue(digits))
  {
    if digits != [] {
      assert IsDigit(digits[0]) && IsDigit(digits[|digits| - 1]);
    }
    TrimLeadingSpaceSeparator(space, digits);
    ToNumberValue([space] + digits);
  }

  /** A leading zero does not change the value of a string of digits. */
  lemma {:induction false} LeadingZero(digits: string)
    requires IsDigits(digits)
    ensures IsDigits("0" + digits) && DigitsValue("0" + digits) == DigitsValue(digits)
    decreases |digits|
  {
    var s := "0" + digits;
    assert IsDigits(s) by {
      forall i | 0 <= i < |s| ensures IsDigit(s[i]) {
        if i > 0 { assert s[i] == digits[i - 1]; }
      }
    }
    if digits == [] {
      assert s[..0] == [];
    } else {
      var init := digits[..|digits| - 1];
      assert IsDigits(init) by {
        forall i | 0 <= i < |init| ensures IsDigit(init[i]) { assert init[i] == digits[i]; }
      }
      LeadingZero(init);
      assert s[..|s| - 1] == "0" + init && s[|s| - 1] == digits[|digits| - 1];
    }
  }

  function DigitChar(d: nat): (c: char)
    requires d < 10
    ensures IsDigit(c) && c as int - '0' as int == d
  {
    ('0' as int + d) as char
  }

  /** `String(n)` for a natural number: its decimal digits, without leading zeros. */
  function NatToString(n: nat): (s: string)
    ensures |s| >= 1 && IsDigits(s)
    ensures s[0] == '0' ==> n == 0
  {
    if n < 10 then [DigitChar(n)] else NatToString(n / 10) + [DigitChar(n % 10)]
  }

  /** `String(i)` for an integer: a minus sign before the digits of a negative number. */
  function IntToString(i: int): (s: string)
    ensures |s| >= 1
    ensures (s[0] == '-') <==> i < 0
  {
    if i < 0 then "-" + NatToString(-i) else NatToString(i)
  }

  /** Reading back the digits that `NatToString` writes gives the number. */
  lemma {:induction false} DigitsValueOfNatToString(n: nat)
    ensures DigitsValue(NatToString(n)) == n
  {
    var s := NatToString(n);
    if n >= 10 {
      DigitsValueOfNatToString(n / 10);
      assert s[..|s| - 1] == NatToString(n / 10);
    }
  }

  /** `Number(String(n)) == n` for every natural number. */
  lemma ToNumberOfNatToString(n: nat)
    ensures ToNumber(NatToString(n)) == Finite(n)
  {
    var s := NatToString(n);
    assert IsDigit(s[0]) && IsDigit(s[|s| - 1]);
    TrimUntrimmed(s);
    DigitsValueOfNatToString(n);
  }

  /** Distinct natural numbers have distinct decimal forms. */
  lemma NatToStringInjective(m: nat, n: nat)
    requires NatToString(m) == NatToString(n)
    ensures m == n
  {
    DigitsValueOfNatToString(m);
    DigitsValueOfNatToString(n);
  }

  /** Distinct integers have distinct `String(...)` forms. */
  lemma IntToStringInjective(i: int, j: int)
    requires IntToString(i) == IntToString(j)
    ensures i == j
  {
    if i < 0 && j < 0 {
      var s := IntToString(i);
      assert s[1..] == NatToString(-i);
      assert IntToString(j)[1..] == NatToString(-j);
      NatToStringInjective(-i, -j);
    } else if i >= 0 && j >= 0 {
      NatToStringInjective(i, j);
    }
  }
}
