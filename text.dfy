/** String operations with the meaning JavaScript gives them: the white-space
    class `\s` (which `String.prototype.trim` shares), `split` on a literal
    separator and on `/\s+/`, `join`, `includes`, `startsWith`, ASCII
    lower-casing, UTF-16 length and decimal rendering of integers. */
module Text {

  /** JavaScript's white space and line terminators: the characters `\s`
      matches and `trim` removes. */
  predicate IsSpace(c: char) {
    || c == ' ' || c == '\t' || c == '\n' || c == '\r'
    || c as int == 0x0B || c as int == 0x0C || c as int == 0xA0
    || c as int == 0x1680 || (0x2000 <= c as int <= 0x200A)
    || c as int == 0x2028 || c as int == 0x2029 || c as int == 0x202F
    || c as int == 0x205F || c as int == 0x3000 || c as int == 0xFEFF
  }

  predicate NoSpace(s: string) {
    forall i :: 0 <= i < |s| ==> !IsSpace(s[i])
  }

  predicate AllSpace(s: string) {
    forall i :: 0 <= i < |s| ==> IsSpace(s[i])
  }

  /** A string with no white space at either end. */
  predicate IsTrimmed(s: string) {
    s == [] || (!IsSpace(s[0]) && !IsSpace(s[|s| - 1]))
  }

  /** `s` without its leading white space. */
  function TrimStart(s: string): (r: string)
    ensures |r| <= |s|
    ensures r == [] || !IsSpace(r[0])
  {
    if |s| > 0 && IsSpace(s[0]) then TrimStart(s[1..]) else s
  }

  /** What `TrimStart` drops is white space, and what it keeps is a suffix. */
  lemma {:induction false} TrimStartSuffix(s: string)
    ensures TrimStart(s) == s[|s| - |TrimStart(s)|..]
    ensures AllSpace(s[..|s| - |TrimStart(s)|])
    decreases |s|
  {
    if |s| > 0 && IsSpace(s[0]) {
      var t := TrimStart(s[1..]);
      TrimStartSuffix(s[1..]);
      var n := |s| - |t|;
      assert s[1..][|s| - 1 - |t|..] == s[n..];
      forall i | 0 <= i < n
        ensures IsSpace(s[..n][i])
      {
        if i > 0 {
          assert s[..n][i] == s[1..][..|s| - 1 - |t|][i - 1];
        }
      }
    }
  }

  /** `s` without its trailing white space. */
  function TrimEnd(s: string): (r: string)
    ensures |r| <= |s|
    ensures r == [] || !IsSpace(r[|r| - 1])
  {
    if |s| > 0 && IsSpace(s[|s| - 1]) then TrimEnd(s[..|s| - 1]) else s
  }

  /** What `TrimEnd` drops is white space, and what it keeps is a prefix. */
  lemma {:induction false} TrimEndPrefix(s: string)
    ensures TrimEnd(s) == s[..|TrimEnd(s)|]
    ensures AllSpace(s[|TrimEnd(s)|..])
    decreases |s|
  {
    if |s| > 0 && IsSpace(s[|s| - 1]) {
      var init := s[..|s| - 1];
      var t := TrimEnd(init);
      TrimEndPrefix(init);
      assert init[..|t|] == s[..|t|];
      forall i | 0 <= i < |s| - |t|
        ensures IsSpace(s[|t|..][i])
      {
        if i < |s| - 1 - |t| {
          assert s[|t|..][i] == init[|t|..][i];
        }
      }
    }
  }

  /** `String.prototype.trim`. */
  function Trim(s: string): (r: string)
    ensures IsTrimmed(r)
    ensures |r| <= |s|
  {
    var t := TrimStart(s);
    TrimEndPrefix(t);
    var r := TrimEnd(t);
    assert r != [] ==> r[0] == t[0];
    r
  }

  /** Trimming a string leaves nothing exactly when the string is all white space. */
  lemma TrimEmptyIff(s: string)
    ensures Trim(s) == [] <==> AllSpace(s)
  {
    var t := TrimStart(s);
    TrimStartSuffix(s);
    TrimEndPrefix(t);
    assert s == s[..|s| - |t|] + t;
    assert t[0..] == t;
    assert t == [] || t[0] == s[|s| - |t|];
  }

  /** Trimming a trimmed string changes nothing. */
  lemma TrimTrimmed(s: string)
    requires IsTrimmed(s)
    ensures Trim(s) == s
  {
  }

  /** The longest prefix of `s` holding no white space. */
  function TakeWord(s: string): (r: string)
    ensures |r| <= |s|
  {
    if |s| == 0 || IsSpace(s[0]) then [] else [s[0]] + TakeWord(s[1..])
  }

  /** The word is a prefix free of white space, ended by white space or by
      the end of `s`. */
  lemma {:induction false} TakeWordShape(s: string)
    ensures var r := TakeWord(s);
            r == s[..|r|] && NoSpace(r) && (|r| < |s| ==> IsSpace(s[|r|]))
    decreases |s|
  {
    if |s| > 0 && !IsSpace(s[0]) {
      TakeWordShape(s[1..]);
      var r := TakeWord(s[1..]);
      assert TakeWord(s) == [s[0]] + r;
      assert s[1..][..|r|] == s[1..|r| + 1];
    }
  }

  /** `s.split(/\s+/)`: the pieces between maximal runs of white space. Like
      JavaScript, a leading or trailing run yields an empty first or last
      piece, and the empty string yields `[""]`. */
  function SplitWs(s: string): (r: seq<string>)
    ensures |r| >= 1
    ensures forall k :: 0 <= k < |r| ==> NoSpace(r[k])
    decreases |s|
  {
    var w := TakeWord(s);
    TakeWordShape(s);
    if |w| == |s| then [w]
    else [w] + SplitWs(TrimStart(s[|w| + 1..]))
  }

  /** Dropping the leading white space of a string that ends in a non-space
      character keeps that last character. */
  lemma {:induction false} TrimStartKeepsLast(x: string)
    requires x != [] && !IsSpace(x[|x| - 1])
    ensures TrimStart(x) != [] && TrimStart(x)[|TrimStart(x)| - 1] == x[|x| - 1]
  {
    if IsSpace(x[0]) {
      assert |x| >= 2;
      TrimStartKeepsLast(x[1..]);
    }
  }

  /** A trimmed non-empty string splits into non-empty words only. */
  lemma {:induction false} SplitWsTrimmedWords(s: string)
    requires s != [] && IsTrimmed(s)
    ensures forall k :: 0 <= k < |SplitWs(s)| ==> SplitWs(s)[k] != []
    decreases |s|
  {
    var w := TakeWord(s);
    TakeWordShape(s);
    if |w| != |s| {
      assert IsSpace(s[|w|]);
      var x := s[|w| + 1..];
      assert |w| + 1 < |s|;
      assert x[|x| - 1] == s[|s| - 1];
      TrimStartKeepsLast(x);
      var rest := TrimStart(x);
      SplitWsTrimmedWords(rest);
    }
  }

  /** `parts.join(sep)`. */
  function Join(parts: seq<string>, sep: string): string {
    if |parts| == 0 then ""
    else if |parts| == 1 then parts[0]
    else parts[0] + sep + Join(parts[1..], sep)
  }

  /** Splitting a single-space join of non-empty, space-free words gives the
      words back. */
  lemma {:induction false} SplitWsJoin(ws: seq<string>)
    requires |ws| >= 1
    requires forall k :: 0 <= k < |ws| ==> ws[k] != [] && NoSpace(ws[k])
    ensures SplitWs(Join(ws, " ")) == ws
  {
    if |ws| == 1 {
      TakeWordPrefix(ws[0], "");
      assert ws[0] + "" == ws[0];
    } else {
      var w, rest := ws[0], ws[1..];
      var tail := Join(rest, " ");
      var s := w + (" " + tail);
      assert Join(ws, " ") == s;
      assert s[|w| + 1..] == tail;
      assert ws == [w] + rest;
      assert forall k :: 0 <= k < |rest| ==> rest[k] == ws[k + 1];
      TakeWordPrefix(w, " " + tail);
      JoinStartsWithWord(rest);
      SplitWsJoin(rest);
      assert SplitWs(s) == [w] + SplitWs(TrimStart(tail));
    }
  }

  lemma {:induction false} TakeWordPrefix(w: string, rest: string)
    requires NoSpace(w)
    requires rest == [] || IsSpace(rest[0])
    ensures TakeWord(w + rest) == w
    decreases |w|
  {
    if w != [] {
      assert (w + rest)[1..] == w[1..] + rest;
      TakeWordPrefix(w[1..], rest);
    } else {
      assert w + rest == rest;
    }
  }

  lemma {:induction false} JoinStartsWithWord(ws: seq<string>)
    requires |ws| >= 1 && ws[0] != [] && NoSpace(ws[0])
    ensures Join(ws, " ") != [] && Join(ws, " ")[0] == ws[0][0]
    ensures TrimStart(Join(ws, " ")) == Join(ws, " ")
  {
  }

  /** Whether `p` is a prefix of `s` (`s.startsWith(p)`). */
  predicate StartsWith(s: string, p: string) {
    |p| <= |s| && s[..|p|] == p
  }

  /** Whether `sub` occurs in `s` starting at position `i`. */
  predicate OccursAt(s: string, sub: string, i: int) {
    0 <= i && i + |sub| <= |s| && s[i..i + |sub|] == sub
  }

  /** The first position at or after `k` where `sub` occurs in `s`, or -1. */
  function FindFrom(s: string, sub: string, k: nat): (r: int)
    requires k <= |s|
    ensures r == -1 || (k <= r && OccursAt(s, sub, r))
    ensures r == -1 ==> forall i :: k <= i ==> !OccursAt(s, sub, i)
    ensures r != -1 ==> forall i :: k <= i < r ==> !OccursAt(s, sub, i)
    decreases |s| - k
  {
    if k + |sub| > |s| then -1
    else if s[k..k + |sub|] == sub then k
    else FindFrom(s, sub, k + 1)
  }

  /** `s.indexOf(sub)`. */
  function IndexOf(s: string, sub: string): int
  {
    FindFrom(s, sub, 0)
  }

  /** `s.includes(sub)`; like JavaScript, every string includes "". */
  predicate Includes(s: string, sub: string) {
    IndexOf(s, sub) != -1
  }

  /** `.filter(p => p.trim())`: the pieces that are not blank. */
  function NonBlank(ps: seq<string>): (r: seq<string>)
    ensures |r| <= |ps|
  {
    if ps == [] then []
    else (if Trim(ps[0]) != [] then [ps[0]] else []) + NonBlank(ps[1..])
  }

  /** The kept pieces are exactly the pieces that are not blank. */
  lemma {:induction false} NonBlankMembers(ps: seq<string>)
    ensures forall p :: p in NonBlank(ps) <==> p in ps && Trim(p) != []
  {
    if ps != [] {
      NonBlankMembers(ps[1..]);
      assert ps == [ps[0]] + ps[1..];
    }
  }

  /** `s.split(sep)` for a non-empty literal separator: the pieces between
      the non-overlapping occurrences of `sep`, scanning left to right. */
  function Split(s: string, sep: string): (r: seq<string>)
    requires |sep| > 0
    ensures |r| >= 1
    decreases |s|
  {
    var i := IndexOf(s, sep);
    if i == -1 then [s] else [s[..i]] + Split(s[i + |sep|..], sep)
  }

  /** Joining the pieces of a split with the same separator restores the input. */
  lemma {:induction false} JoinSplit(s: string, sep: string)
    requires |sep| > 0
    ensures Join(Split(s, sep), sep) == s
    decreases |s|
  {
    var i := IndexOf(s, sep);
    if i != -1 {
      var rest := s[i + |sep|..];
      var tail := Split(rest, sep);
      var parts := Split(s, sep);
      assert parts == [s[..i]] + tail;
      assert parts[1..] == tail;
      assert Join(parts, sep) == s[..i] + sep + Join(tail, sep);
      JoinSplit(rest, sep);
      assert OccursAt(s, sep, i);
      assert s == s[..i] + s[i..i + |sep|] + rest;
    }
  }

  /** A string in which a one-character separator never occurs splits into itself. */
  lemma SplitAbsent(s: string, c: char)
    requires forall i :: 0 <= i < |s| ==> s[i] != c
    ensures Split(s, [c]) == [s]
  {
    forall i | 0 <= i
      ensures !OccursAt(s, [c], i)
    {
      if i + 1 <= |s| { assert s[i..i + 1][0] == s[i]; }
    }
  }

  /** JavaScript's `toLowerCase` on ASCII letters. */
  function LowerChar(c: char): (r: char)
    ensures 'A' <= c <= 'Z' ==> r as int == c as int + 32
    ensures !('A' <= c <= 'Z') ==> r == c
  {
    if 'A' <= c <= 'Z' then (c as int + 32) as char else c
  }

  function ToLower(s: string): (r: string)
    ensures |r| == |s| && forall i :: 0 <= i < |s| ==> r[i] == LowerChar(s[i])
  {
    seq(|s|, i requires 0 <= i < |s| => LowerChar(s[i]))
  }

  /** `s.length`: the number of UTF-16 code units, two for a character
      outside the Basic Multilingual Plane. */
  function Utf16Length(s: string): (n: nat)
    ensures |s| <= n <= 2 * |s|
  {
    if s == [] then 0 else Utf16Length(s[..|s| - 1]) + (if s[|s| - 1] as int > 0xFFFF then 2 else 1)
  }

  lemma Utf16LengthAppend(s: string, c: char)
    ensures Utf16Length(s + [c]) > Utf16Length(s)
  {
    assert (s + [c])[..|s|] == s;
  }

  /** `arr.slice(0, n)`: a negative `n` counts from the end. */
  function SliceTo<T>(s: seq<T>, n: int): (r: seq<T>)
    ensures n >= 0 ==> |r| <= n
    ensures n >= 0 ==> r == s[..if n <= |s| then n else |s|]
    ensures n < 0 ==> r == s[..if |s| + n >= 0 then |s| + n else 0]
  {
    if n >= 0 then (if n <= |s| then s[..n] else s)
    else if |s| + n >= 0 then s[..|s| + n] else []
  }

  /** What `slice(0, n)` keeps is a prefix of the input. */
  lemma SliceToPrefix<T>(s: seq<T>, n: int, x: T)
    requires x in SliceTo(s, n)
    ensures x in s
  {
    var r := SliceTo(s, n);
    var k :| 0 <= k < |r| && r[k] == x;
    assert s[k] == x;
  }

  // ---------------------------------------------------------------------
  // Decimal rendering of integers (template literals, `toString`)

  function DigitChar(d: nat): char
    requires d < 10
  {
    ['0', '1', '2', '3', '4', '5', '6', '7', '8', '9'][d]
  }

  predicate IsDigit(c: char) {
    '0' <= c <= '9'
  }

  function DigitValue(c: char): nat
    requires IsDigit(c)
  {
    c as int - '0' as int
  }

  lemma DigitRoundTrip(d: nat)
    requires d < 10
    ensures IsDigit(DigitChar(d)) && DigitValue(DigitChar(d)) == d
  {
  }

  /** The decimal numeral of `n`, as `String(n)` renders it. */
  function NatToString(n: nat): (r: string)
    ensures |r| >= 1
    ensures forall i :: 0 <= i < |r| ==> IsDigit(r[i])
  {
    DigitRoundTrip(n % 10);
    if n < 10 then [DigitChar(n)] else NatToString(n / 10) + [DigitChar(n % 10)]
  }

  function IntToString(i: int): string {
    if i < 0 then "-" + NatToString(-i) else NatToString(i)
  }

  /** The value of a string of decimal digits. */
  function ParseNat(s: string): nat
    requires forall i :: 0 <= i < |s| ==> IsDigit(s[i])
  {
    if s == [] then 0 else 10 * ParseNat(s[..|s| - 1]) + DigitValue(s[|s| - 1])
  }

  /** Reading back a rendered numeral gives the number. */
  lemma {:induction false} ParseNatToString(n: nat)
    ensures ParseNat(NatToString(n)) == n
  {
    var s := NatToString(n);
    DigitRoundTrip(n % 10);
    if n >= 10 {
      var p := NatToString(n / 10);
      assert s == p + [DigitChar(n % 10)];
      assert s[..|s| - 1] == p && s[|s| - 1] == DigitChar(n % 10);
      ParseNatToString(n / 10);
      assert ParseNat(s) == 10 * ParseNat(p) + DigitValue(DigitChar(n % 10));
    } else {
      assert s == [DigitChar(n)] && s[..0] == [];
      assert ParseNat(s) == 10 * ParseNat([]) + DigitValue(DigitChar(n));
    }
  }

  /** A rendered numeral has no leading zero, except for zero itself. */
  lemma {:induction false} NatToStringNoLeadingZero(n: nat)
    ensures NatToString(n)[0] == '0' <==> n == 0
  {
    if n >= 10 {
      NatToStringNoLeadingZero(n / 10);
    } else {
      DigitRoundTrip(n);
    }
  }
}
