/**
 * Lock files hold several packages' records. `alignVersions` rewrites two
 * records in the server and in the Tauri lock file, one after the other,
 * so what one rewrite does to the other package's record matters. Each
 * rewrite replaces the quoted version of the leftmost match of its own
 * pattern. The other package's record reads the same afterwards as long
 * as the replaced version and the new one are each on one line: a
 * pattern match always spans a line break, so it can neither start inside
 * such a value nor be created there.
 */
module ReleaseLockRecords {
  import opened Wrappers
  import opened Strings
  import opened ReleaseBase
  import opened ReleaseLockAdapter

  /** The part of the record pattern before the package name. */
  const RecordOpen := "[[package]]\nname = \""

  /** The part of the record pattern between the package name and the version. */
  const RecordVersionKey := "\"\nversion = \""

  /** The version the leftmost record of `name` captures, if any. */
  function RecordedVersion(text: string, name: string): Option<string> {
    match LockVersionSpan(text, name)
    case None => None
    case Some((c, d)) => Some(text[c..d])
  }

  /** A version recorded in a lock file that has no line break. */
  predicate OneLineRecord(files: FileStore, path: string, name: string) {
    var r := ReadLockVersion(files, path, name);
    r.Ok? && r.value.Some? ==> '\n' !in r.value.value
  }

  /** The record head's layout: the fixed characters around the name. */
  lemma HeadLayout(name: string)
    ensures var h := LockRecordHead(name);
            |h| == 33 + |name|
            && h[11] == '\n' && h[15] == 'e' && h[19] == '"' && h[20 + |name|] == '"' && h[21 + |name|] == '\n'
            && h[|h| - 5] == 'n' && h[|h| - 1] == '"'
            && (forall k :: 0 <= k < |name| ==> h[20 + k] == name[k])
  {
    var h := LockRecordHead(name);
    assert h == RecordOpen + name + RecordVersionKey;
  }

  /** The quotes of a record head, for a name without quotes. */
  lemma HeadChars(name: string)
    requires '"' !in name
    ensures var h := LockRecordHead(name);
            forall k :: 0 <= k < |h| ==> (h[k] == '"' <==> k == 19 || k == 20 + |name| || k == |h| - 1)
  {
    var h := LockRecordHead(name);
    HeadLayout(name);
    assert h == RecordOpen + name + RecordVersionKey;
    forall k | 0 <= k < |h| ensures h[k] == '"' <==> k == 19 || k == 20 + |name| || k == |h| - 1 {
      if k < 20 {
        assert h[k] == RecordOpen[k];
      } else if k < 20 + |name| {
        assert h[k] == name[k - 20];
      } else {
        assert h[k] == RecordVersionKey[k - 20 - |name|];
      }
    }
  }

  /** What a head found at `m` says about the characters from `m` on. */
  lemma HeadFrom(x: string, name: string, m: nat)
    requires '"' !in name
    ensures OccursAt(x, LockRecordHead(name), m) ==>
              m + 33 + |name| <= |x|
              && (forall k :: m <= k < m + 33 + |name| ==>
                    (x[k] == '"' <==> k == m + 19 || k == m + 20 + |name| || k == m + 32 + |name|))
              && x[m + 11] == '\n' && x[m + 15] == 'e' && x[m + 21 + |name|] == '\n'
  {
    var h := LockRecordHead(name);
    if OccursAt(x, h, m) {
      HeadLayout(name);
      HeadChars(name);
      forall k | m <= k < m + |h| ensures x[k] == h[k - m] {
        assert x[m..m + |h|][k - m] == x[k];
      }
    }
  }

  /** What a head ending at `c` says about the characters before `c`. */
  lemma HeadBefore(x: string, name: string, c: nat)
    ensures c >= |LockRecordHead(name)| && OccursAt(x, LockRecordHead(name), c - |LockRecordHead(name)|) ==>
              c >= 33 + |name| && x[c - 1] == '"' && x[c - 5] == 'n' && x[c - 14 - |name|] == '"'
              && forall k :: 0 <= k < |name| ==> x[c - 13 - |name| + k] == name[k]
  {
    var h := LockRecordHead(name);
    if c >= |h| && OccursAt(x, h, c - |h|) {
      HeadLayout(name);
      forall k | c - |h| <= k < c ensures x[k] == h[k - c + |h|] {
        assert x[c - |h|..c][k - c + |h|] == x[k];
      }
    }
  }

  /** Two heads with equal-length names that end at the same place name the same package. */
  lemma EqualSlots(x: string, a: string, b: string, c: nat)
    ensures (c >= |LockRecordHead(a)| && OccursAt(x, LockRecordHead(a), c - |LockRecordHead(a)|)
             && c >= |LockRecordHead(b)| && OccursAt(x, LockRecordHead(b), c - |LockRecordHead(b)|)
             && |a| == |b|) ==> a == b
  {
    HeadBefore(x, a, c);
    HeadBefore(x, b, c);
    if c >= |LockRecordHead(a)| && OccursAt(x, LockRecordHead(a), c - |LockRecordHead(a)|)
       && c >= |LockRecordHead(b)| && OccursAt(x, LockRecordHead(b), c - |LockRecordHead(b)|) && |a| == |b| {
      forall k | 0 <= k < |a| ensures a[k] == b[k] {
        assert x[c - 13 - |a| + k] == a[k];
      }
    }
  }

  /** Where a shorter name's head ends, a longer name has a quote inside it. */
  lemma LongerSlot(x: string, a: string, b: string, c: nat)
    ensures (c >= |LockRecordHead(a)| && OccursAt(x, LockRecordHead(a), c - |LockRecordHead(a)|)
             && c >= |LockRecordHead(b)| && OccursAt(x, LockRecordHead(b), c - |LockRecordHead(b)|)
             && |a| < |b|) ==> b[|b| - |a| - 1] == '"'
  {
    HeadBefore(x, a, c);
    HeadBefore(x, b, c);
    if c >= |LockRecordHead(a)| && OccursAt(x, LockRecordHead(a), c - |LockRecordHead(a)|)
       && c >= |LockRecordHead(b)| && OccursAt(x, LockRecordHead(b), c - |LockRecordHead(b)|) && |a| < |b| {
      var k := |b| - |a| - 1;
      assert x[c - 13 - |b| + k] == b[k];
    }
  }

  /** The heads of two different packages never end at the same place. */
  lemma HeadsDisagree(x: string, a: string, b: string, c: nat)
    requires '"' !in a && '"' !in b && a != b
    requires c >= |LockRecordHead(a)| && OccursAt(x, LockRecordHead(a), c - |LockRecordHead(a)|)
    ensures !(c >= |LockRecordHead(b)| && OccursAt(x, LockRecordHead(b), c - |LockRecordHead(b)|))
  {
    EqualSlots(x, a, b, c);
    LongerSlot(x, a, b, c);
    LongerSlot(x, b, a, c);
  }

  /**
   * A head that starts before the end of another head at `c` cannot run
   * past it when the text at `c` is not a line break.
   */
  lemma NoStraddle(x: string, a: string, b: string, c: nat, m: nat)
    requires '"' !in a && '"' !in b
    requires c >= |LockRecordHead(a)| && OccursAt(x, LockRecordHead(a), c - |LockRecordHead(a)|)
    requires m < c < m + |LockRecordHead(b)|
    requires c < |x| ==> x[c] != '\n'
    ensures !OccursAt(x, LockRecordHead(b), m)
  {
    HeadBefore(x, a, c);
    HeadFrom(x, b, m);
  }

  /** No head starts inside a quoted value that has no line break. */
  lemma NoHeadInValue(x: string, name: string, lo: nat, hi: nat, m: nat)
    requires '"' !in name
    requires lo <= m < hi < |x| && x[hi] == '"'
    requires forall k :: lo <= k < hi ==> x[k] != '"' && x[k] != '\n'
    ensures !OccursAt(x, LockRecordHead(name), m)
  {
    HeadFrom(x, name, m);
  }

  /** Two texts that agree from `m` and from `n` on, character by character. */
  lemma SuffixChars(s: string, t: string, m: nat, n: nat)
    requires m <= |s| && n <= |t| && s[m..] == t[n..]
    ensures |s| - m == |t| - n && forall k :: m <= k < |s| ==> s[k] == t[k - m + n]
  {
    forall k | m <= k < |s| ensures s[k] == t[k - m + n] {
      assert s[m..][k - m] == t[n..][k - m];
    }
  }

  /** The closing quote of a capture is found at the same offset in both texts. */
  lemma CaptureOfSuffix(s: string, t: string, m: nat, n: nat, p: nat)
    requires m <= p <= |s| && n <= |t| && |s| - m == |t| - n
    requires forall k :: m <= k < |s| ==> s[k] == t[k - m + n]
    ensures LockCaptureEnd(s, p).Some? == LockCaptureEnd(t, p - m + n).Some?
    ensures LockCaptureEnd(s, p).Some? ==> LockCaptureEnd(t, p - m + n).value == LockCaptureEnd(s, p).value - m + n
  {
    var fs, ft := IndexOfFrom(s, '"', p), IndexOfFrom(t, '"', p - m + n);
    if fs.Some? {
      forall k | p - m + n <= k < fs.value - m + n ensures t[k] != '"' {
        assert s[k - n + m] == t[k];
      }
      IndexOfFromAt(t, '"', p - m + n, fs.value - m + n);
    }
    if ft.Some? {
      IndexOfFromAt(s, '"', p, ft.value - n + m);
    }
  }

  /** `CaptureOfSuffix` for two texts that agree from `m` and from `n` on. */
  lemma CaptureAfterSuffix(s: string, t: string, m: nat, n: nat, p: nat)
    requires m <= p <= |s| && n <= |t| && s[m..] == t[n..]
    ensures LockCaptureEnd(s, p).Some? == LockCaptureEnd(t, p - m + n).Some?
    ensures LockCaptureEnd(s, p).Some? ==> LockCaptureEnd(t, p - m + n).value == LockCaptureEnd(s, p).value - m + n
  {
    SuffixChars(s, t, m, n);
    CaptureOfSuffix(s, t, m, n, p);
  }

  /** A record is read off the text from its start on. */
  lemma RecordOfSuffix(s: string, t: string, name: string, m: nat, n: nat)
    requires m <= |s| && n <= |t| && s[m..] == t[n..]
    ensures LockRecordAt(s, name, m) == LockRecordAt(t, name, n)
    ensures LockRecordAt(s, name, m) ==>
              var L := |LockRecordHead(name)|;
              LockCaptureEnd(t, n + L).value == LockCaptureEnd(s, m + L).value - m + n
              && t[n + L..LockCaptureEnd(t, n + L).value] == s[m + L..LockCaptureEnd(s, m + L).value]
  {
    var h := LockRecordHead(name);
    var L := |h|;
    assert |s| - m == |t| - n by { assert |s[m..]| == |t[n..]|; }
    if m + L <= |s| {
      SliceOfSuffix(s, t, m, n, m, m + L);
      assert OccursAt(s, h, m) == OccursAt(t, h, n);
      CaptureAfterSuffix(s, t, m, n, m + L);
      if LockRecordAt(s, name, m) {
        var e := LockCaptureEnd(s, m + L).value;
        assert LockCaptureEnd(t, n + L).value == e - m + n;
        SliceOfSuffix(s, t, m, n, m + L, e);
      }
    }
  }

  /** The same stretch of two texts that agree from `m` and from `n` on. */
  lemma SliceOfSuffix(s: string, t: string, m: nat, n: nat, lo: nat, hi: nat)
    requires m <= lo <= hi <= |s| && n <= |t| && s[m..] == t[n..]
    ensures hi - m + n <= |t| && t[lo - m + n..hi - m + n] == s[lo..hi]
  {
    assert |s| - m == |t| - n by { assert |s[m..]| == |t[n..]|; }
    forall k | 0 <= k < hi - lo ensures t[lo - m + n..hi - m + n][k] == s[lo..hi][k] {
      assert s[m..][lo - m + k] == t[n..][lo - m + k];
    }
  }

  /** A record that starts before the replaced version is the same record in both texts. */
  lemma RecordBeforeSplice(s: string, t: string, a: string, b: string, c: nat, m: nat)
    requires '"' !in a && '"' !in b && a != b
    requires c >= |LockRecordHead(a)| && OccursAt(s, LockRecordHead(a), c - |LockRecordHead(a)|)
    requires c < |s| && s[c] != '\n' && c < |t| && t[c] != '\n' && AgreeUpTo(s, t, c)
    requires m < c
    ensures LockRecordAt(t, b, m) == LockRecordAt(s, b, m)
    ensures LockRecordAt(s, b, m) ==>
              var e := LockCaptureEnd(s, m + |LockRecordHead(b)|).value;
              e < c && LockCaptureEnd(t, m + |LockRecordHead(b)|) == Some(e) && t[m + |LockRecordHead(b)|..e] == s[m + |LockRecordHead(b)|..e]
  {
    var hb := LockRecordHead(b);
    var L := |hb|;
    OccursAtLocal(s, t, LockRecordHead(a), c - |LockRecordHead(a)|, c);
    HeadBefore(s, a, c);
    if m + L < c {
      OccursAtLocal(s, t, hb, m, c);
      assert s[c - 1] == '"';
      var f := IndexOfFrom(s, '"', m + L);
      assert f.Some? && f.value <= c - 1;
      IndexOfFromLocal(s, t, '"', m + L, c);
      if LockRecordAt(s, b, m) {
        var e := f.value;
        assert t[m + L..e] == s[m + L..e] by {
          forall k | m + L <= k < e ensures t[k] == s[k] { }
        }
      }
    } else if m + L == c {
      HeadsDisagree(s, a, b, c);
      OccursAtLocal(s, t, hb, m, c);
    } else {
      NoStraddle(s, a, b, c, m);
      NoStraddle(t, a, b, c, m);
    }
  }

  /** The positions of the two texts, before, inside and after the replaced version. */
  predicate SpliceRecords(s: string, t: string, b: string, c: nat, d: nat, w: nat)
    requires c <= d <= |s| && c + w <= |t|
  {
    (forall m {:trigger LockRecordAt(t, b, m)} :: 0 <= m < c ==> LockRecordAt(t, b, m) == LockRecordAt(s, b, m))
    && (forall m :: c <= m < d ==> !LockRecordAt(s, b, m))
    && (forall m :: c <= m < c + w ==> !LockRecordAt(t, b, m))
    && (forall k {:trigger LockRecordAt(t, b, k)} :: c + w <= k <= |t| ==> LockRecordAt(t, b, k) == LockRecordAt(s, b, k - c - w + d))
    && |t| - (c + w) == |s| - d
  }

  /** No record starts inside a quoted value without line breaks. */
  lemma ValueHoldsNoRecord(x: string, name: string, lo: nat, hi: nat)
    requires '"' !in name && lo <= hi < |x| && x[hi] == '"'
    requires forall k :: lo <= k < hi ==> x[k] != '"' && x[k] != '\n'
    ensures forall m :: lo <= m < hi ==> !LockRecordAt(x, name, m)
  {
    forall m | lo <= m < hi ensures !LockRecordAt(x, name, m) {
      NoHeadInValue(x, name, lo, hi, m);
    }
  }

  /** The replaced version has neither quotes nor line breaks. */
  lemma OldValueChars(s: string, c: nat, d: nat)
    requires c <= d <= |s| && '\n' !in s[c..d] && forall k :: c <= k < d ==> s[k] != '"'
    ensures forall k :: c <= k < d ==> s[k] != '"' && s[k] != '\n'
  {
    forall k | c <= k < d ensures s[k] != '\n' {
      assert s[k] == s[c..d][k - c];
    }
  }

  /** The new version, in place, has neither quotes nor line breaks. */
  lemma NewValueChars(t: string, c: nat, v: string)
    requires c + |v| <= |t| && t[c..c + |v|] == v && '"' !in v && '\n' !in v
    ensures forall k :: c <= k < c + |v| ==> t[k] != '"' && t[k] != '\n'
  {
    forall k | c <= k < c + |v| ensures t[k] != '"' && t[k] != '\n' {
      assert t[k] == v[k - c];
    }
  }

  /** Records after the replaced version are the same records, shifted. */
  lemma RecordsAfterSplice(s: string, t: string, b: string, c: nat, d: nat, w: nat)
    requires d <= |s| && c + w <= |t| && t[c + w..] == s[d..]
    ensures forall k {:trigger LockRecordAt(t, b, k)} :: c + w <= k <= |t| ==> LockRecordAt(t, b, k) == LockRecordAt(s, b, k - c - w + d)
  {
    forall k | c + w <= k <= |t| ensures LockRecordAt(t, b, k) == LockRecordAt(s, b, k - c - w + d) {
      var m := k - c - w + d;
      assert t[k..] == t[c + w..][k - c - w..] && s[m..] == s[d..][k - c - w..];
      RecordOfSuffix(s, t, b, m, k);
    }
  }

  /** The replaced version's place: its first character in both texts, and what follows it. */
  lemma SpliceShape(s: string, t: string, a: string, v: string, c: nat, d: nat)
    requires LockVersionSpan(s, a) == Some((c, d))
    requires |v| > 0 && t == s[..c] + v + s[d..]
    ensures c >= |LockRecordHead(a)| && OccursAt(s, LockRecordHead(a), c - |LockRecordHead(a)|)
    ensures c < d < |s| && c < |t| && s[c] == s[c..d][0] && t[c] == v[0] && AgreeUpTo(s, t, c)
    ensures c + |v| <= |t| && t[c..c + |v|] == v && t[c + |v|] == '"' && t[c + |v|..] == s[d..]
  {
    var i := LockRecordFrom(s, a, 0).value;
    assert c == i + |LockRecordHead(a)|;
    assert t[c..c + |v|] == v && t[c + |v|..] == s[d..];
    AgreeWithReplacement(s, c, v, s[d..]);
  }

  /** Records that start before the replaced version are the same in both texts. */
  lemma SpliceBefore(s: string, t: string, a: string, b: string, v: string, c: nat, d: nat)
    requires '"' !in a && '"' !in b && a != b
    requires LockVersionSpan(s, a) == Some((c, d)) && '\n' !in s[c..d]
    requires |v| > 0 && '\n' !in v && t == s[..c] + v + s[d..]
    ensures forall m {:trigger LockRecordAt(t, b, m)} :: 0 <= m < c ==> LockRecordAt(t, b, m) == LockRecordAt(s, b, m)
  {
    SpliceShape(s, t, a, v, c, d);
    assert s[c] != '\n' && t[c] != '\n';
    forall m | 0 <= m < c ensures LockRecordAt(t, b, m) == LockRecordAt(s, b, m) {
      RecordBeforeSplice(s, t, a, b, c, m);
    }
  }

  /** No record starts inside either version. */
  lemma SpliceInside(s: string, t: string, a: string, b: string, v: string, c: nat, d: nat)
    requires '"' !in b
    requires LockVersionSpan(s, a) == Some((c, d)) && '\n' !in s[c..d]
    requires |v| > 0 && '"' !in v && '\n' !in v && t == s[..c] + v + s[d..]
    ensures forall m :: c <= m < d ==> !LockRecordAt(s, b, m)
    ensures forall m :: c <= m < c + |v| ==> !LockRecordAt(t, b, m)
  {
    SpliceShape(s, t, a, v, c, d);
    OldValueChars(s, c, d);
    ValueHoldsNoRecord(s, b, c, d);
    NewValueChars(t, c, v);
    ValueHoldsNoRecord(t, b, c, c + |v|);
  }

  /** Records after the replaced version are the same records, shifted. */
  lemma SpliceAfter(s: string, t: string, b: string, v: string, c: nat, d: nat)
    requires c <= d <= |s| && t == s[..c] + v + s[d..]
    ensures c + |v| <= |t| && |t| - (c + |v|) == |s| - d
    ensures forall k {:trigger LockRecordAt(t, b, k)} :: c + |v| <= k <= |t| ==> LockRecordAt(t, b, k) == LockRecordAt(s, b, k - c - |v| + d)
  {
    assert t[c + |v|..] == s[d..];
    RecordsAfterSplice(s, t, b, c, d, |v|);
  }

  /** The position facts for a replacement of the version at `(c, d)` by `v`. */
  lemma SpliceFacts(s: string, t: string, a: string, b: string, v: string, c: nat, d: nat)
    requires '"' !in a && '"' !in b && a != b
    requires LockVersionSpan(s, a) == Some((c, d)) && '\n' !in s[c..d]
    requires |v| > 0 && '"' !in v && '\n' !in v
    requires t == s[..c] + v + s[d..]
    ensures c <= d <= |s| && c + |v| <= |t|
    ensures SpliceRecords(s, t, b, c, d, |v|)
  {
    SpliceBefore(s, t, a, b, v, c, d);
    SpliceInside(s, t, a, b, v, c, d);
    SpliceAfter(s, t, b, v, c, d);
  }

  /** The leftmost scan stops at the first record. */
  lemma {:induction false} RecordFromAt(x: string, name: string, j: nat, i: nat)
    requires j <= i && LockRecordAt(x, name, i)
    requires forall k :: j <= k < i ==> !LockRecordAt(x, name, k)
    ensures LockRecordFrom(x, name, j) == Some(i)
    decreases i - j
  {
    if j < i {
      RecordFromAt(x, name, j + 1, i);
    }
  }

  /** Without a record for `b` before the replacement, there is none after it. */
  lemma NoRecordKept(s: string, t: string, b: string, c: nat, d: nat, w: nat)
    requires c <= d <= |s| && c + w <= |t| && SpliceRecords(s, t, b, c, d, w)
    requires LockRecordFrom(s, b, 0).None?
    ensures LockRecordFrom(t, b, 0).None?
  {
    LockRecordFromIsLeftmost(s, b, 0);
    forall k: nat ensures !LockRecordAt(t, b, k) {
      if c + w <= k <= |t| {
        assert LockRecordAt(t, b, k) == LockRecordAt(s, b, k - c - w + d);
      }
    }
  }

  /** A record of `b` before the replaced version stays the leftmost, with the same version. */
  lemma EarlierRecordKept(s: string, t: string, a: string, b: string, c: nat, d: nat, w: nat)
    requires '"' !in a && '"' !in b && a != b
    requires c >= |LockRecordHead(a)| && OccursAt(s, LockRecordHead(a), c - |LockRecordHead(a)|)
    requires c < |s| && s[c] != '\n' && c < |t| && t[c] != '\n' && AgreeUpTo(s, t, c)
    requires c <= d <= |s| && c + w <= |t| && SpliceRecords(s, t, b, c, d, w)
    requires LockRecordFrom(s, b, 0).Some? && LockRecordFrom(s, b, 0).value < c
    ensures RecordedVersion(t, b) == RecordedVersion(s, b)
  {
    var j := LockRecordFrom(s, b, 0).value;
    LockRecordFromIsLeftmost(s, b, 0);
    RecordBeforeSplice(s, t, a, b, c, j);
    RecordFromAt(t, b, 0, j);
    RecordedAt(s, b, j);
    RecordedAt(t, b, j);
  }

  /** A record of `b` after the replaced version stays the leftmost, shifted, with the same version. */
  lemma LaterRecordKept(s: string, t: string, b: string, c: nat, d: nat, w: nat)
    requires c <= d <= |s| && c + w <= |t| && SpliceRecords(s, t, b, c, d, w)
    requires t[c + w..] == s[d..]
    requires LockRecordFrom(s, b, 0).Some? && LockRecordFrom(s, b, 0).value >= d
    ensures RecordedVersion(t, b) == RecordedVersion(s, b)
  {
    var j := LockRecordFrom(s, b, 0).value;
    var j' := j - d + c + w;
    LockRecordFromIsLeftmost(s, b, 0);
    assert t[j'..] == s[j..] by {
      assert t[j'..] == t[c + w..][j - d..] && s[j..] == s[d..][j - d..];
    }
    RecordOfSuffix(s, t, b, j, j');
    NothingBeforeShifted(s, t, b, c, d, w, j);
    RecordFromAt(t, b, 0, j');
    RecordedAt(s, b, j);
    RecordedAt(t, b, j');
  }

  /** Before the shifted leftmost record of `s`, `t` holds no record either. */
  lemma NothingBeforeShifted(s: string, t: string, b: string, c: nat, d: nat, w: nat, j: nat)
    requires c <= d <= |s| && c + w <= |t| && SpliceRecords(s, t, b, c, d, w)
    requires d <= j && forall k :: 0 <= k < j ==> !LockRecordAt(s, b, k)
    ensures forall k :: 0 <= k < j - d + c + w ==> !LockRecordAt(t, b, k)
  {
    forall k | 0 <= k < j - d + c + w ensures !LockRecordAt(t, b, k) {
      if k >= c + w {
        assert LockRecordAt(t, b, k) == LockRecordAt(s, b, k - c - w + d);
      }
    }
  }

  /** The version recorded by a leftmost record at `j`. */
  lemma RecordedAt(x: string, name: string, j: nat)
    requires LockRecordFrom(x, name, 0) == Some(j)
    ensures var L := |LockRecordHead(name)|;
            j + L <= |x| && LockCaptureEnd(x, j + L).Some?
            && RecordedVersion(x, name) == Some(x[j + L..LockCaptureEnd(x, j + L).value])
  {
  }

  /** Replacing the version of `a`'s record leaves the version recorded for `b` as it was. */
  lemma OtherRecordKept(s: string, a: string, b: string, v: string)
    requires '"' !in a && '"' !in b && a != b
    requires LockVersionSpan(s, a).Some?
    requires '\n' !in s[LockVersionSpan(s, a).value.0..LockVersionSpan(s, a).value.1]
    requires |v| > 0 && '"' !in v && '\n' !in v
    ensures var (c, d) := LockVersionSpan(s, a).value;
            RecordedVersion(s[..c] + v + s[d..], b) == RecordedVersion(s, b)
  {
    var (c, d) := LockVersionSpan(s, a).value;
    var t := s[..c] + v + s[d..];
    SpliceFacts(s, t, a, b, v, c, d);
    var i := LockRecordFrom(s, a, 0).value;
    assert c == i + |LockRecordHead(a)|;
    assert s[c] == s[c..d][0];
    assert t[c] == v[0];
    assert t[c + |v|..] == s[d..];
    AgreeWithReplacement(s, c, v, s[d..]);
    if LockRecordFrom(s, b, 0).None? {
      NoRecordKept(s, t, b, c, d, |v|);
    } else if LockRecordFrom(s, b, 0).value < c {
      EarlierRecordKept(s, t, a, b, c, d, |v|);
    } else {
      LaterRecordKept(s, t, b, c, d, |v|);
    }
  }

  /** What reading a record gives once its file holds text. */
  lemma ReadIsRecorded(files: FileStore, path: string, name: string)
    requires path in files && files[path].Text?
    ensures ReadLockVersion(files, path, name) == Ok(RecordedVersion(files[path].text, name))
  {
  }

  /**
   * What reading `name` in `path` gives after its own write of `v`, in
   * terms of the files the write started from.
   */
  function ExpectedRecord(files: FileStore, path: string, name: string, v: string): Result<Option<string>, ReleaseError> {
    if path in files && files[path].Text? && LockVersionSpan(files[path].text, name).Some? then Ok(Some(v)) else Ok(None)
  }

  /** A write that succeeded reads back as the expected record. */
  lemma OwnRecordWritten(files: FileStore, path: string, name: string, v: string)
    requires WriteLockVersion(files, path, name, v).Ok? && |v| > 0 && '"' !in v
    ensures ReadLockVersion(WriteLockVersion(files, path, name, v).value, path, name) == ExpectedRecord(files, path, name, v)
  {
    if path in files && files[path].Text? && LockVersionSpan(files[path].text, name).Some? {
      LockWriteThenRead(files, path, name, v);
    }
  }

  /**
   * Writing `a`'s record leaves what `b`'s record reads unchanged, when
   * `a`'s old version and the new one are each on one line.
   */
  lemma WriteKeepsOtherRecord(files: FileStore, path: string, a: string, b: string, v: string)
    requires '"' !in a && '"' !in b && a != b
    requires WriteLockVersion(files, path, a, v).Ok? && OneLineRecord(files, path, a)
    requires |v| > 0 && '"' !in v && '\n' !in v
    ensures ReadLockVersion(WriteLockVersion(files, path, a, v).value, path, b) == ReadLockVersion(files, path, b)
  {
    if path in files && files[path].Text? && LockVersionSpan(files[path].text, a).Some? {
      var text := files[path].text;
      var (c, d) := LockVersionSpan(text, a).value;
      var t := text[..c] + v + text[d..];
      LockWriteStores(files, path, a, v);
      ReadIsRecorded(files, path, a);
      assert '\n' !in text[c..d];
      OtherRecordKept(text, a, b, v);
      ReadIsRecorded(files, path, b);
      ReadIsRecorded(files[path := Text(t)], path, b);
    }
  }

  /** Two records that share a file, written one after the other: both read back as the new version. */
  lemma LockWritePair(files: FileStore, path: string, a: string, b: string, v: string)
    requires '"' !in a && '"' !in b && a != b
    requires |v| > 0 && '"' !in v && '\n' !in v
    requires OneLineRecord(files, path, a) && OneLineRecord(files, path, b)
    requires WriteLockVersion(files, path, a, v).Ok?
    requires WriteLockVersion(WriteLockVersion(files, path, a, v).value, path, b, v).Ok?
    ensures var once := WriteLockVersion(files, path, a, v).value;
            var twice := WriteLockVersion(once, path, b, v).value;
            ReadLockVersion(twice, path, a) == ExpectedRecord(files, path, a, v)
            && ReadLockVersion(twice, path, b) == ExpectedRecord(files, path, b, v)
  {
    var once := WriteLockVersion(files, path, a, v).value;
    var twice := WriteLockVersion(once, path, b, v).value;
    OwnRecordWritten(files, path, a, v);
    WriteKeepsOtherRecord(files, path, a, b, v);
    assert ExpectedRecord(once, path, b, v) == ExpectedRecord(files, path, b, v);
    OwnRecordWritten(once, path, b, v);
    WriteKeepsOtherRecord(once, path, b, a, v);
  }
}
