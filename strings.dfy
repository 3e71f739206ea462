/**
 * Character classes and string helpers shared by the Rust and the
 * JavaScript parts of the model. Case mapping is ASCII-only.
 */
module Strings {
  import opened Wrappers

  /** Rust's `char::is_whitespace`: the Unicode White_Space property. */
  predicate IsRustWhitespace(c: char) {
    ('\t' <= c <= '\r') || c == ' ' || c == '\U{0085}' || c == '\U{00A0}'
    || c == '\U{1680}' || ('\U{2000}' <= c <= '\U{200A}') || c == '\U{2028}'
    || c == '\U{2029}' || c == '\U{202F}' || c == '\U{205F}' || c == '\U{3000}'
  }

  /** ECMAScript WhiteSpace or LineTerminator: what `\s` matches and `trim()` removes. */
  predicate IsJsWhitespace(c: char) {
    ('\t' <= c <= '\r') || c == ' ' || c == '\U{00A0}' || c == '\U{1680}'
    || ('\U{2000}' <= c <= '\U{200A}') || c == '\U{2028}' || c == '\U{2029}'
    || c == '\U{202F}' || c == '\U{205F}' || c == '\U{3000}' || c == '\U{FEFF}'
  }

  /** ECMAScript LineTerminator: what `.` refuses and what `^` follows in multiline mode. */
  predicate IsJsLineTerminator(c: char) {
    c == '\n' || c == '\r' || c == '\U{2028}' || c == '\U{2029}'
  }

  predicate IsAsciiDigit(c: char) { '0' <= c <= '9' }
  predicate IsAsciiUpper(c: char) { 'A' <= c <= 'Z' }
  predicate IsAsciiLower(c: char) { 'a' <= c <= 'z' }
  predicate IsAsciiLetter(c: char) { IsAsciiUpper(c) || IsAsciiLower(c) }
  predicate IsAsciiAlphanumeric(c: char) { IsAsciiDigit(c) || IsAsciiLetter(c) }

  predicate AllAsciiDigits(s: string) {
    forall i :: 0 <= i < |s| ==> IsAsciiDigit(s[i])
  }

  /** Six ASCII digits: the shape of a mainland China exchange or fund code. */
  predicate IsSixDigitCode(s: string) {
    |s| == 6 && AllAsciiDigits(s)
  }

  function UpperChar(c: char): (r: char)
    ensures IsAsciiLower(c) ==> IsAsciiUpper(r)
    ensures !IsAsciiLower(c) ==> r == c
  {
    if IsAsciiLower(c) then (c as int - 32) as char else c
  }

  function LowerChar(c: char): (r: char)
    ensures IsAsciiUpper(c) ==> IsAsciiLower(r)
    ensures !IsAsciiUpper(c) ==> r == c
  {
    if IsAsciiUpper(c) then (c as int + 32) as char else c
  }

  /** ASCII upper-casing of every character. */
  function ToUpper(s: string): (r: string)
    ensures |r| == |s|
    ensures forall i :: 0 <= i < |s| ==> r[i] == UpperChar(s[i])
  {
    seq(|s|, i requires 0 <= i < |s| => UpperChar(s[i]))
  }

  /** ASCII lower-casing of every character. */
  function ToLower(s: string): (r: string)
    ensures |r| == |s|
    ensures forall i :: 0 <= i < |s| ==> r[i] == LowerChar(s[i])
  {
    seq(|s|, i requires 0 <= i < |s| => LowerChar(s[i]))
  }

  predicate EqualsIgnoreAsciiCase(a: string, b: string) {
    ToLower(a) == ToLower(b)
  }

  /** The first index at or after `i` whose character is not whitespace of the given kind. */
  function SkipSpaces(s: string, i: nat, js: bool): (j: nat)
    requires i <= |s|
    ensures i <= j <= |s|
    ensures forall k :: i <= k < j ==> IsSpace(s[k], js)
    ensures j < |s| ==> !IsSpace(s[j], js)
    decreases |s| - i
  {
    if i < |s| && IsSpace(s[i], js) then SkipSpaces(s, i + 1, js) else i
  }

  predicate IsSpace(c: char, js: bool) {
    if js then IsJsWhitespace(c) else IsRustWhitespace(c)
  }

  /** The smallest index at or before `j` from which only whitespace follows up to `j`. */
  function SkipSpacesBack(s: string, j: nat, js: bool): (i: nat)
    requires j <= |s|
    ensures i <= j
    ensures forall k :: i <= k < j ==> IsSpace(s[k], js)
    ensures i > 0 ==> !IsSpace(s[i - 1], js)
    decreases j
  {
    if j > 0 && IsSpace(s[j - 1], js) then SkipSpacesBack(s, j - 1, js) else j
  }

  function TrimWith(s: string, js: bool): (r: string)
  {
    var a := SkipSpaces(s, 0, js);
    var b := SkipSpacesBack(s, |s|, js);
    if a <= b then s[a..b] else ""
  }

  /** Rust's `str::trim`. */
  function Trim(s: string): string { TrimWith(s, false) }

  /** JavaScript's `String.prototype.trim`. */
  function JsTrim(s: string): string { TrimWith(s, true) }

  /** A string that neither starts nor ends with whitespace of the given kind. */
  predicate IsTrimmed(s: string, js: bool) {
    |s| == 0 || (!IsSpace(s[0], js) && !IsSpace(s[|s| - 1], js))
  }

  /** Trimming removes only surrounding whitespace and leaves a trimmed string. */
  lemma TrimShape(s: string, js: bool)
    ensures IsTrimmed(TrimWith(s, js), js)
    ensures exists a, b :: 0 <= a <= b <= |s| && TrimWith(s, js) == s[a..b]
    ensures TrimWith(s, js) == "" <==> forall k :: 0 <= k < |s| ==> IsSpace(s[k], js)
  {
    var a := SkipSpaces(s, 0, js);
    var b := SkipSpacesBack(s, |s|, js);
    if a <= b {
      assert TrimWith(s, js) == s[a..b];
    } else {
      assert TrimWith(s, js) == s[0..0];
    }
  }

  /** Trimming a trimmed string changes nothing. */
  lemma TrimOfTrimmed(s: string, js: bool)
    requires IsTrimmed(s, js)
    ensures TrimWith(s, js) == s
  {
    if |s| > 0 {
      assert SkipSpaces(s, 0, js) == 0;
      assert SkipSpacesBack(s, |s|, js) == |s|;
      assert s[0..|s|] == s;
    }
  }

  /** Trimming is idempotent. */
  lemma TrimIdempotent(s: string, js: bool)
    ensures TrimWith(TrimWith(s, js), js) == TrimWith(s, js)
  {
    TrimShape(s, js);
    TrimOfTrimmed(TrimWith(s, js), js);
  }

  /** A string made of whitespace of the given kind only. */
  predicate AllSpace(s: string, js: bool) {
    forall k :: 0 <= k < |s| ==> IsSpace(s[k], js)
  }

  /** Trimming surrounding whitespace off a trimmed, non-empty core gives the core back. */
  lemma TrimOfPadded(lead: string, core: string, trail: string, js: bool)
    requires AllSpace(lead, js) && AllSpace(trail, js)
    requires core != [] && IsTrimmed(core, js)
    ensures TrimWith(lead + core + trail, js) == core
  {
    var s := lead + core + trail;
    var a, b := |lead|, |lead| + |core|;
    SkipSpacesOver(s, 0, a, js);
    SkipSpacesBackOver(s, b, |s|, js);
    assert s[a..b] == core;
  }

  lemma {:induction false} SkipSpacesOver(s: string, i: nat, j: nat, js: bool)
    requires i <= j < |s| && !IsSpace(s[j], js)
    requires forall k :: i <= k < j ==> IsSpace(s[k], js)
    ensures SkipSpaces(s, i, js) == j
    decreases j - i
  {
    if i < j {
      SkipSpacesOver(s, i + 1, j, js);
    }
  }

  lemma {:induction false} SkipSpacesBackOver(s: string, i: nat, j: nat, js: bool)
    requires 0 < i <= j <= |s| && !IsSpace(s[i - 1], js)
    requires forall k :: i <= k < j ==> IsSpace(s[k], js)
    ensures SkipSpacesBack(s, j, js) == i
    decreases j - i
  {
    if i < j {
      SkipSpacesBackOver(s, i, j - 1, js);
    }
  }

  predicate StartsWith(s: string, prefix: string) {
    |prefix| <= |s| && s[..|prefix|] == prefix
  }

  predicate EndsWith(s: string, suffix: string) {
    |suffix| <= |s| && s[|s| - |suffix|..] == suffix
  }

  /** `t` occurs in `s` at index `i`. */
  predicate OccursAt(s: string, t: string, i: int) {
    0 <= i && i + |t| <= |s| && s[i..i + |t|] == t
  }

  /** The first occurrence of `t` in `s` at or after `from`. */
  function FindFrom(s: string, t: string, from: nat): (r: Option<nat>)
    ensures r.Some? ==> from <= r.value && OccursAt(s, t, r.value)
    ensures r.Some? ==> forall k :: from <= k < r.value ==> !OccursAt(s, t, k)
    ensures r.None? ==> forall k :: from <= k ==> !OccursAt(s, t, k)
    decreases |s| + 1 - from
  {
    if from + |t| > |s| then None
    else if s[from..from + |t|] == t then Some(from)
    else FindFrom(s, t, from + 1)
  }

  /** JavaScript's `String.prototype.includes`. */
  predicate Contains(s: string, t: string) {
    FindFrom(s, t, 0).Some?
  }

  /** A text without the first character of `t` does not contain `t`. */
  lemma NotContainedWithoutFirst(s: string, t: string)
    requires |t| > 0 && t[0] !in s
    ensures !Contains(s, t)
  {
    forall k | 0 <= k && k + |t| <= |s| ensures !OccursAt(s, t, k) {
      assert s[k..k + |t|][0] == s[k];
    }
  }

  lemma ContainsWhenOccurs(s: string, t: string, i: int)
    requires OccursAt(s, t, i)
    ensures Contains(s, t)
  {
  }

  /** The first index of `c` in `s` at or after `from`. */
  function IndexOfFrom(s: string, c: char, from: nat): (r: Option<nat>)
    requires from <= |s|
    ensures r.Some? ==> from <= r.value < |s| && s[r.value] == c
    ensures r.Some? ==> forall k :: from <= k < r.value ==> s[k] != c
    ensures r.None? ==> forall k :: from <= k < |s| ==> s[k] != c
    decreases |s| - from
  {
    if from == |s| then None
    else if s[from] == c then Some(from)
    else IndexOfFrom(s, c, from + 1)
  }

  function IndexOf(s: string, c: char): Option<nat> { IndexOfFrom(s, c, 0) }

  /** The last index of `c` in `s[..upto]`. */
  function LastIndexOfBefore(s: string, c: char, upto: nat): (r: Option<nat>)
    requires upto <= |s|
    ensures r.Some? ==> r.value < upto && s[r.value] == c
    ensures r.Some? ==> forall k :: r.value < k < upto ==> s[k] != c
    ensures r.None? ==> forall k :: 0 <= k < upto ==> s[k] != c
    decreases upto
  {
    if upto == 0 then None
    else if s[upto - 1] == c then Some(upto - 1)
    else LastIndexOfBefore(s, c, upto - 1)
  }

  function LastIndexOf(s: string, c: char): Option<nat> { LastIndexOfBefore(s, c, |s|) }

  /** Rust's `str::split_once` on a character: the text around its first occurrence. */
  function SplitOnce(s: string, c: char): (r: Option<(string, string)>)
    ensures r.None? <==> c !in s
    ensures r.Some? ==> s == r.value.0 + [c] + r.value.1 && c !in r.value.0
  {
    match IndexOf(s, c)
    case None => None
    case Some(k) =>
      assert s == s[..k] + [c] + s[k + 1..];
      Some((s[..k], s[k + 1..]))
  }

  /** Splitting at a first separator: the left part holds no separator, so the split is unique. */
  lemma SplitOnceOfJoin(left: string, c: char, right: string)
    requires c !in left
    ensures SplitOnce(left + [c] + right, c) == Some((left, right))
  {
    var s := left + [c] + right;
    assert s[|left|] == c;
    var k := IndexOf(s, c).value;
    assert k == |left| by {
      assert forall j :: 0 <= j < |left| ==> s[j] == left[j];
    }
    assert s[..k] == left;
    assert s[k + 1..] == right;
  }

  /** Rust's `str::split` on a character: every piece between separators, in order. */
  function Split(s: string, c: char): (r: seq<string>)
    ensures |r| >= 1
    ensures forall i :: 0 <= i < |r| ==> c !in r[i]
    decreases |s|
  {
    match IndexOf(s, c)
    case None => [s]
    case Some(k) => [s[..k]] + Split(s[k + 1..], c)
  }

  /** The pieces joined back with the separator between them. */
  function Join(parts: seq<string>, c: char): string
    requires |parts| >= 1
    decreases |parts|
  {
    if |parts| == 1 then parts[0] else parts[0] + [c] + Join(parts[1..], c)
  }

  /** Splitting separator-free pieces joined by the separator gives the pieces back. */
  lemma {:induction false} SplitOfJoin(parts: seq<string>, c: char)
    requires |parts| >= 1 && forall i :: 0 <= i < |parts| ==> c !in parts[i]
    ensures Split(Join(parts, c), c) == parts
    decreases |parts|
  {
    var s := Join(parts, c);
    if |parts| == 1 {
      assert IndexOf(s, c).None?;
    } else {
      var rest := Join(parts[1..], c);
      assert s == parts[0] + [c] + rest;
      SplitAtFirstSeparator(parts[0], c, rest);
      SplitOfJoin(parts[1..], c);
      assert [parts[0]] + parts[1..] == parts;
    }
  }

  /** A separator-free head, the separator, then anything: the split takes the head off first. */
  lemma SplitAtFirstSeparator(head: string, c: char, rest: string)
    requires c !in head
    ensures Split(head + [c] + rest, c) == [head] + Split(rest, c)
  {
    var s := head + [c] + rest;
    var k := |head|;
    assert forall i :: 0 <= i < k ==> s[i] == head[i];
    IndexOfFromAt(s, c, 0, k);
    assert s[..k] == head && s[k + 1..] == rest;
  }

  /** A join starts with the first piece and ends with the last one. */
  lemma {:induction false} JoinEnds(parts: seq<string>, c: char)
    requires |parts| >= 1
    ensures StartsWith(Join(parts, c), parts[0])
    ensures EndsWith(Join(parts, c), parts[|parts| - 1])
    decreases |parts|
  {
    if |parts| > 1 {
      JoinEnds(parts[1..], c);
      var rest := Join(parts[1..], c);
      var last := parts[|parts| - 1];
      assert Join(parts, c) == parts[0] + [c] + rest;
      assert (parts[0] + [c] + rest)[..|parts[0]|] == parts[0];
      assert rest[|rest| - |last|..] == last;
      assert (parts[0] + [c] + rest)[|parts[0]| + 1 + |rest| - |last|..] == rest[|rest| - |last|..];
    }
  }

  function DigitValue(c: char): nat
    requires IsAsciiDigit(c)
  {
    c as int - '0' as int
  }

  function DigitChar(d: nat): (c: char)
    requires d < 10
    ensures IsAsciiDigit(c) && DigitValue(c) == d
  {
    ('0' as int + d) as char
  }

  /** The value of a string of decimal digits. */
  function DecimalValue(s: string): nat
    requires AllAsciiDigits(s)
    decreases |s|
  {
    if s == [] then 0 else DecimalValue(s[..|s| - 1]) * 10 + DigitValue(s[|s| - 1])
  }

  /** The decimal digits of `n`, without leading zeros ("0" for zero). */
  function DecimalString(n: nat): (r: string)
    ensures |r| >= 1 && AllAsciiDigits(r)
    decreases n
  {
    if n < 10 then [DigitChar(n)] else DecimalString(n / 10) + [DigitChar(n % 10)]
  }

  /** Reading back the digits of `n` gives `n`. */
  lemma {:induction false} DecimalRoundTrip(n: nat)
    ensures DecimalValue(DecimalString(n)) == n
  {
    var r := DecimalString(n);
    if n >= 10 {
      DecimalRoundTrip(n / 10);
      assert r[..|r| - 1] == DecimalString(n / 10);
    }
  }

  /** Leading zeros do not change a decimal value. */
  lemma {:induction false} LeadingZerosValue(z: nat, s: string)
    requires AllAsciiDigits(s)
    ensures AllAsciiDigits(Zeros(z) + s)
    ensures DecimalValue(Zeros(z) + s) == DecimalValue(s)
    decreases |s|
  {
    var t := Zeros(z) + s;
    if s == [] {
      assert t == Zeros(z);
      ZerosValue(z);
    } else {
      assert t[..|t| - 1] == Zeros(z) + s[..|s| - 1];
      LeadingZerosValue(z, s[..|s| - 1]);
    }
  }

  function Zeros(n: nat): (r: string)
    ensures |r| == n && forall i :: 0 <= i < n ==> r[i] == '0'
  {
    seq(n, i => '0')
  }

  lemma {:induction false} ZerosValue(n: nat)
    ensures AllAsciiDigits(Zeros(n)) && DecimalValue(Zeros(n)) == 0
  {
    if n > 0 {
      assert Zeros(n)[..n - 1] == Zeros(n - 1);
      ZerosValue(n - 1);
    }
  }

  /** The digits of `n`, left-padded with zeros to at least `width` characters (`{:0width}`). */
  function ZeroPadded(n: nat, width: nat): (r: string)
    ensures AllAsciiDigits(r)
  {
    var d := DecimalString(n);
    ZerosValue(if |d| < width then width - |d| else 0);
    LeadingZerosValue(if |d| < width then width - |d| else 0, d);
    Zeros(if |d| < width then width - |d| else 0) + d
  }

  function Pow10(k: nat): (r: nat)
    ensures r >= 1
  {
    if k == 0 then 1 else 10 * Pow10(k - 1)
  }

  /** `k` decimal digits hold a value below `10^k`. */
  lemma {:induction false} DecimalValueBound(s: string)
    requires AllAsciiDigits(s)
    ensures DecimalValue(s) < Pow10(|s|)
    decreases |s|
  {
    if s != [] {
      DecimalValueBound(s[..|s| - 1]);
    }
  }

  /** `n` needs at most `k` digits below `10^k` and more than `k` from `10^k` on. */
  lemma {:induction false} DecimalStringLength(n: nat, k: nat)
    ensures k >= 1 && n < Pow10(k) ==> |DecimalString(n)| <= k
    ensures Pow10(k) <= n ==> |DecimalString(n)| > k
    decreases n
  {
    if n >= 10 {
      assert |DecimalString(n)| == |DecimalString(n / 10)| + 1;
      if k >= 1 {
        assert n < 10 * Pow10(k - 1) ==> n / 10 < Pow10(k - 1);
        assert 10 * Pow10(k - 1) <= n ==> Pow10(k - 1) <= n / 10;
        DecimalStringLength(n / 10, k - 1);
      }
    } else if k >= 1 {
      assert Pow10(k) == 10 * Pow10(k - 1);
    }
  }

  /** Zero padding keeps the value and yields exactly `max(width, digits)` characters. */
  lemma ZeroPaddedFacts(n: nat, width: nat)
    ensures DecimalValue(ZeroPadded(n, width)) == n
    ensures |ZeroPadded(n, width)| == if |DecimalString(n)| < width then width else |DecimalString(n)|
  {
    var d := DecimalString(n);
    LeadingZerosValue(if |d| < width then width - |d| else 0, d);
    DecimalRoundTrip(n);
  }

  // ---------------------------------------------------------------------
  // Scanners read only what they pass over: two strings that agree on a
  // prefix give the same scan results inside that prefix.
  // ---------------------------------------------------------------------

  /** `s` and `t` agree on their first `m` characters. */
  predicate AgreeUpTo(s: string, t: string, m: nat) {
    m <= |s| && m <= |t| && forall k :: 0 <= k < m ==> s[k] == t[k]
  }

  lemma AgreeWithReplacement(s: string, c: nat, v: string, rest: string)
    requires c <= |s|
    ensures AgreeUpTo(s, s[..c] + v + rest, c)
  {
    var t := s[..c] + v + rest;
    assert forall k :: 0 <= k < c ==> t[k] == s[k];
  }

  lemma AgreeShrink(s: string, t: string, m: nat, m': nat)
    requires AgreeUpTo(s, t, m) && m' <= m
    ensures AgreeUpTo(s, t, m')
  {
  }

  lemma {:induction false} SkipSpacesLocal(s: string, t: string, i: nat, m: nat, js: bool)
    requires i <= |s| && i <= |t| && AgreeUpTo(s, t, m) && SkipSpaces(s, i, js) < m
    ensures SkipSpaces(t, i, js) == SkipSpaces(s, i, js)
    decreases |s| - i
  {
    assert s[i] == t[i];
    if IsSpace(s[i], js) {
      SkipSpacesLocal(s, t, i + 1, m, js);
    }
  }

  lemma {:induction false} IndexOfFromLocal(s: string, t: string, c: char, i: nat, m: nat)
    requires i <= |s| && i <= |t| && AgreeUpTo(s, t, m)
    requires IndexOfFrom(s, c, i).Some? && IndexOfFrom(s, c, i).value < m
    ensures IndexOfFrom(t, c, i) == IndexOfFrom(s, c, i)
    decreases |s| - i
  {
    assert s[i] == t[i];
    if s[i] != c {
      IndexOfFromLocal(s, t, c, i + 1, m);
    }
  }

  lemma OccursAtLocal(s: string, t: string, w: string, i: nat, m: nat)
    requires AgreeUpTo(s, t, m) && i + |w| <= m
    ensures OccursAt(s, w, i) == OccursAt(t, w, i)
  {
    var a, b := s[i..i + |w|], t[i..i + |w|];
    forall k | 0 <= k < |w| ensures a[k] == b[k] {
      assert s[i + k] == t[i + k];
    }
    assert a == b;
  }

  lemma {:induction false} FindFromLocal(s: string, t: string, w: string, i: nat, m: nat)
    requires AgreeUpTo(s, t, m)
    requires FindFrom(s, w, i).Some? && FindFrom(s, w, i).value + |w| <= m
    ensures FindFrom(t, w, i) == FindFrom(s, w, i)
    decreases |s| + 1 - i
  {
    OccursAtLocal(s, t, w, i, m);
    if FindFrom(s, w, i).value != i {
      FindFromLocal(s, t, w, i + 1, m);
    }
  }

  /** The first `c` at or after `i` is at `j` when none stands in between. */
  lemma {:induction false} IndexOfFromAt(t: string, c: char, i: nat, j: nat)
    requires i <= j < |t| && t[j] == c
    requires forall k :: i <= k < j ==> t[k] != c
    ensures IndexOfFrom(t, c, i) == Some(j)
    decreases j - i
  {
    if i < j { IndexOfFromAt(t, c, i + 1, j); }
  }

  /** With no `c` in `v`, the first `c` at or after the start of `v` is the one right after it. */
  lemma IndexAfterReplacement(t: string, i: nat, v: string, c: char)
    requires c !in v && i + |v| < |t| && t[i..i + |v|] == v && t[i + |v|] == c
    ensures IndexOfFrom(t, c, i) == Some(i + |v|)
  {
    forall k | i <= k < i + |v| ensures t[k] != c {
      assert t[k] == t[i..i + |v|][k - i];
    }
    IndexOfFromAt(t, c, i, i + |v|);
  }
}
