/**
 * The release tool's file adapters: the `version` field of the two JSON
 * files, the `[package]` version of a Cargo.toml, and the version of a
 * named `[[package]]` record in a Cargo.lock. The TOML and lock adapters
 * are models of the tool's regular expressions over the raw text.
 */
module ReleaseAdapters {
  import opened Wrappers
  import opened Strings
  import opened JsonModel
  import opened ReleaseBase

  // ---------------------------------------------------------------------
  // package.json and tauri.conf.json
  // ---------------------------------------------------------------------

  /** `JSON.parse(...).version`, which must be a string. */
  function ReadJsonVersion(files: FileStore, path: string): (r: Result<string, ReleaseError>)
    ensures r.Ok? <==> path in files && files[path].Doc? && files[path].json.JObject?
                       && Lookup(files[path].json.fields, "version").Some?
                       && Lookup(files[path].json.fields, "version").value.JString?
    ensures r.Ok? ==> Lookup(files[path].json.fields, "version") == Some(JString(r.value))
  {
    match ReadJson(files, path)
    case Err(e) => Err(e)
    case Ok(doc) =>
      match Member(doc, "version")
      case Err(_) => Err(JsTypeError(path))
      case Ok(Some(JString(v))) => Ok(v)
      case Ok(_) => Err(NoStringVersion(path))
  }

  /** Parse the file, assign `version`, write the document back. */
  function WriteJsonVersion(files: FileStore, path: string, version: string): (r: Result<FileStore, ReleaseError>)
    ensures r.Ok? <==> path in files && files[path].Doc? && (files[path].json.JObject? || files[path].json.JArray?)
    ensures r.Ok? ==> r.value.Keys == files.Keys && forall p :: p in files && p != path ==> r.value[p] == files[p]
  {
    match ReadJson(files, path)
    case Err(e) => Err(e)
    case Ok(doc) =>
      match Assign(doc, "version", JString(version))
      case Err(_) => Err(JsTypeError(path))
      case Ok(updated) => Ok(files[path := Doc(updated)])
  }

  /**
   * Writing a version into a JSON object and reading it back gives that
   * version; every other field keeps its value and the key order is kept.
   */
  lemma JsonVersionRoundTrip(files: FileStore, path: string, version: string)
    requires path in files && files[path].Doc? && files[path].json.JObject?
    ensures WriteJsonVersion(files, path, version).Ok?
    ensures var written := WriteJsonVersion(files, path, version).value;
            ReadJsonVersion(written, path) == Ok(version)
            && written[path].Doc? && written[path].json.JObject?
            && (forall key :: key != "version" ==>
                  Lookup(written[path].json.fields, key) == Lookup(files[path].json.fields, key))
            && Keys(written[path].json.fields)
                 == if "version" in Keys(files[path].json.fields) then Keys(files[path].json.fields)
                    else Keys(files[path].json.fields) + ["version"]
  {
    var fields := files[path].json.fields;
    var written := WriteJsonVersion(files, path, version).value;
    assert written[path] == Doc(JObject(SetField(fields, "version", JString(version))));
    SetFieldLookup(fields, "version", JString(version), "version");
    forall key | key != "version"
      ensures Lookup(written[path].json.fields, key) == Lookup(fields, key)
    {
      SetFieldLookup(fields, "version", JString(version), key);
    }
    SetFieldKeys(fields, "version", JString(version));
  }

  /** A JSON array takes the assignment without keeping it, so the version still cannot be read back. */
  lemma JsonArrayDropsVersion(files: FileStore, path: string, version: string)
    requires path in files && files[path].Doc? && files[path].json.JArray?
    ensures WriteJsonVersion(files, path, version) == Ok(files)
    ensures ReadJsonVersion(files, path) == Err(NoStringVersion(path))
  {
    assert files[path := Doc(files[path].json)] == files;
  }

  function ReadPackageJsonVersion(files: FileStore): Result<string, ReleaseError> {
    ReadJsonVersion(files, PackageJsonPath)
  }

  function ReadTauriVersion(files: FileStore): Result<string, ReleaseError> {
    ReadJsonVersion(files, TauriConfigPath)
  }

  // ---------------------------------------------------------------------
  // Cargo.toml: /\[package\][\s\S]*?^\s*version\s*=\s*"([^"]+)"/m
  // ---------------------------------------------------------------------

  const PackageHeader := "[package]"

  /** Where `^` matches in multiline mode: the start, or just after a line terminator. */
  predicate IsLineStart(s: string, p: nat)
    requires p <= |s|
  {
    p == 0 || IsJsLineTerminator(s[p - 1])
  }

  /**
   * `version\s*=\s*"` tried at `a`: the position of the opening quote.
   * Each `\s*` takes the whole run of whitespace because the character
   * that must follow it is never whitespace.
   */
  function OpeningQuoteAt(s: string, a: nat): (r: Option<nat>)
    requires a <= |s|
    ensures r.Some? ==> OccursAt(s, "version", a) && a + 8 <= r.value < |s| && s[r.value] == '"'
  {
    if !OccursAt(s, "version", a) then None
    else AssignedQuoteFrom(s, a + 7)
  }

  /** `\s*=\s*"` tried at `w`: the position of the quote. */
  function AssignedQuoteFrom(s: string, w: nat): (r: Option<nat>)
    requires w <= |s|
    ensures r.Some? ==> w + 1 <= r.value < |s| && s[r.value] == '"'
  {
    var b := SkipSpaces(s, w, true);
    if b == |s| || s[b] != '=' then None
    else
      var q := SkipSpaces(s, b + 1, true);
      if q == |s| || s[q] != '"' then None
      else Some(q)
  }

  /** `s[c..d]` is a non-empty run without `"`, with a `"` on either side. */
  predicate QuotedSpan(s: string, c: int, d: int) {
    0 < c < d < |s| && s[c - 1] == '"' && s[d] == '"' && forall k :: c <= k < d ==> s[k] != '"'
  }

  /** `version\s*=\s*"([^"]+)"` tried at `a`: the bounds of the captured version; `[^"]+` runs to the next quote. */
  function VersionAssignmentAt(s: string, a: nat): (r: Option<(nat, nat)>)
    requires a <= |s|
    ensures r.Some? ==> OccursAt(s, "version", a) && a + 9 <= r.value.0 < r.value.1 < |s|
    ensures r.Some? ==> OpeningQuoteAt(s, a) == Some(r.value.0 - 1)
    ensures r.Some? ==> QuotedSpan(s, r.value.0, r.value.1)
  {
    match OpeningQuoteAt(s, a)
    case None => None
    case Some(q) => QuotedValueAfter(s, q)
  }

  /** `([^"]+)"` after the opening quote at `q`: the span of the non-empty capture. */
  function QuotedValueAfter(s: string, q: nat): (r: Option<(nat, nat)>)
    requires q < |s| && s[q] == '"'
    ensures r.Some? ==> r.value.0 == q + 1 && QuotedSpan(s, r.value.0, r.value.1)
  {
    match IndexOfFrom(s, '"', q + 1)
    case None => None
    case Some(d) => if d == q + 1 then None else Some((q + 1, d))
  }

  /**
   * The lazy `[\s\S]*?` followed by `^\s*`: the first line start at or
   * after `p` whose line (after leading whitespace) holds the assignment;
   * the position of its `version` word.
   */
  function VersionLineFrom(s: string, p: nat): (r: Option<nat>)
    requires p <= |s|
    ensures r.Some? ==> p <= r.value <= |s| && VersionAssignmentAt(s, r.value).Some?
    decreases |s| - p
  {
    if LineHoldsAssignment(s, p) then Some(SkipSpaces(s, p, true))
    else if p == |s| then None
    else VersionLineFrom(s, p + 1)
  }

  /** The line starting at `p` holds the assignment after its leading whitespace. */
  predicate LineHoldsAssignment(s: string, p: nat)
    requires p <= |s|
  {
    IsLineStart(s, p) && VersionAssignmentAt(s, SkipSpaces(s, p, true)).Some?
  }

  /** Just after the first `[package]`, if there is one. */
  function PackageBodyStart(s: string): (r: Option<nat>)
    ensures r.Some? ==> |PackageHeader| <= r.value <= |s| && OccursAt(s, PackageHeader, r.value - |PackageHeader|)
  {
    match FindFrom(s, PackageHeader, 0)
    case None => None
    case Some(k) => Some(k + |PackageHeader|)
  }

  /**
   * The captured version's bounds. The match is anchored at the first
   * `[package]`: a later `[package]` could only retry the same lines.
   */
  function CargoVersionSpan(s: string): (r: Option<(nat, nat)>)
    ensures r.Some? ==> QuotedSpan(s, r.value.0, r.value.1)
  {
    match PackageBodyStart(s)
    case None => None
    case Some(p) =>
      match VersionLineFrom(s, p)
      case None => None
      case Some(a) => VersionAssignmentAt(s, a)
  }

  /** `readCargoVersion`. */
  function ReadCargoVersion(files: FileStore, path: string): (r: Result<string, ReleaseError>)
    ensures r.Ok? <==> path in files && files[path].Text? && CargoVersionSpan(files[path].text).Some?
    ensures r.Ok? ==> |r.value| > 0 && '"' !in r.value
  {
    match ReadText(files, path)
    case Err(e) => Err(e)
    case Ok(text) =>
      match CargoVersionSpan(text)
      case None => Err(CargoVersionNotFound(path))
      case Some((c, d)) => Ok(text[c..d])
  }

  /**
   * `writeCargoVersion`: replace the captured version; a text that comes
   * out unchanged (no match, or the same version) is an error.
   */
  function WriteCargoVersion(files: FileStore, path: string, version: string): (r: Result<FileStore, ReleaseError>)
    ensures r.Ok? ==> path in files && files[path].Text? && CargoVersionSpan(files[path].text).Some?
    ensures r.Ok? ==> r.value.Keys == files.Keys && forall p :: p in files && p != path ==> r.value[p] == files[p]
    ensures ReadCargoVersion(files, path).Ok? ==>
              (r == Err(CargoVersionNotUpdated(path)) <==> ReadCargoVersion(files, path).value == version)
    ensures (path in files && files[path].Text? && CargoVersionSpan(files[path].text).None?)
              ==> r == Err(CargoVersionNotUpdated(path))
  {
    match ReadText(files, path)
    case Err(e) => Err(e)
    case Ok(text) =>
      match CargoVersionSpan(text)
      case None => Err(CargoVersionNotUpdated(path))
      case Some((c, d)) =>
        var replaced := text[..c] + version + text[d..];
        SpliceUnchanged(text, c, d, version);
        if replaced == text then Err(CargoVersionNotUpdated(path))
        else Ok(files[path := Text(replaced)])
  }

  /** Replacing `s[c..d]` by `v` leaves `s` as it was exactly when `v` is that slice. */
  lemma SpliceUnchanged(s: string, c: nat, d: nat, v: string)
    requires c <= d <= |s|
    ensures s[..c] + v + s[d..] == s <==> v == s[c..d]
  {
    if s[..c] + v + s[d..] == s {
      assert |v| == d - c;
      assert forall k :: 0 <= k < |v| ==> v[k] == (s[..c] + v + s[d..])[c + k];
      assert v == s[c..d];
    }
    if v == s[c..d] {
      assert s == s[..c] + s[c..d] + s[d..];
    }
  }

  /** No letter of `version` after the first is `v`, so two `version` words cannot overlap. */
  lemma VersionWordsApart(s: string, e: nat, a: nat)
    requires e < a && OccursAt(s, "version", e) && OccursAt(s, "version", a)
    ensures e + 7 <= a
  {
    var w := s[e..e + 7];
    assert forall k :: e < k < e + 7 ==> s[k] == w[k - e];
    assert forall k :: 0 < k < 7 ==> "version"[k] != 'v';
    assert s[a] == s[a..a + 7][0] == 'v';
  }

  /** A scan for whitespace stops at the first character that is not whitespace. */
  lemma SkipStopsAt(s: string, x: nat, a: nat)
    requires x <= a < |s| && !IsJsWhitespace(s[a])
    ensures SkipSpaces(s, x, true) <= a
  {
  }

  /**
   * Tried at a `version` word that ends before some later `v`, the
   * opening-quote scan stops before that `v`, so it reads only what the
   * two texts share.
   */
  lemma OpeningQuoteBeforeLetter(s: string, t: string, e: nat, x: nat, m: nat)
    requires e + 7 <= x < m && AgreeUpTo(s, t, m) && s[x] == 'v'
    ensures OpeningQuoteAt(t, e) == OpeningQuoteAt(s, e)
    ensures OpeningQuoteAt(s, e).Some? ==> OpeningQuoteAt(s, e).value < x
  {
    OccursAtLocal(s, t, "version", e, m);
    AssignedQuoteBeforeLetter(s, t, e + 7, x, m);
  }

  /** The scan for `=` and the quote, started before a `v`, stops before it and reads only what the texts share. */
  lemma AssignedQuoteBeforeLetter(s: string, t: string, w: nat, x: nat, m: nat)
    requires w <= x < m && AgreeUpTo(s, t, m) && s[x] == 'v'
    ensures AssignedQuoteFrom(t, w) == AssignedQuoteFrom(s, w)
    ensures AssignedQuoteFrom(s, w).Some? ==> AssignedQuoteFrom(s, w).value < x
  {
    var b := SkipSpaces(s, w, true);
    SkipBeforeLetter(s, t, w, x, m);
    if s[b] == '=' {
      SkipBeforeLetter(s, t, b + 1, x, m);
    }
  }

  /** Whitespace skipped from before a `v` stops at the same place, at most at the `v`, in both texts. */
  lemma SkipBeforeLetter(s: string, t: string, i: nat, x: nat, m: nat)
    requires i <= x < m && AgreeUpTo(s, t, m) && s[x] == 'v'
    ensures SkipSpaces(t, i, true) == SkipSpaces(s, i, true) <= x
    ensures t[SkipSpaces(s, i, true)] == s[SkipSpaces(s, i, true)]
  {
    SkipStopsAt(s, i, x);
    SkipSpacesLocal(s, t, i, m, true);
  }


  /** An opening quote found before `m` is found again in a text that agrees up to `m`. */
  lemma OpeningQuoteLocal(s: string, t: string, a: nat, q: nat, m: nat)
    requires a <= |s| && OpeningQuoteAt(s, a) == Some(q) && q < m && AgreeUpTo(s, t, m)
    ensures OpeningQuoteAt(t, a) == Some(q)
  {
    OccursAtLocal(s, t, "version", a, m);
    AssignedQuoteLocal(s, t, a + 7, q, m);
  }

  /** The scan for `=` and the quote reads nothing beyond the quote it finds. */
  lemma AssignedQuoteLocal(s: string, t: string, w: nat, q: nat, m: nat)
    requires w <= |s| && w <= |t| && AssignedQuoteFrom(s, w) == Some(q) && q < m && AgreeUpTo(s, t, m)
    ensures AssignedQuoteFrom(t, w) == Some(q)
  {
    var b := SkipSpaces(s, w, true);
    SkipSpacesLocal(s, t, w, m, true);
    assert t[b] == s[b];
    SkipSpacesLocal(s, t, b + 1, m, true);
    assert t[q] == s[q];
  }

  /**
   * An assignment tried before the matching one reads nothing at or
   * beyond the captured version, so a text that agrees up to the capture
   * gives the same answer there.
   */
  lemma AssignmentBeforeMatchIsLocal(s: string, t: string, e: nat, a: nat, c: nat, d: nat)
    requires e < a <= |s| && e <= |t|
    requires VersionAssignmentAt(s, a) == Some((c, d))
    requires AgreeUpTo(s, t, c)
    ensures VersionAssignmentAt(t, e) == VersionAssignmentAt(s, e)
  {
    assert s[a] == s[a..a + 7][0] == 'v';
    OccursAtLocal(s, t, "version", e, c);
    if OccursAt(s, "version", e) {
      VersionWordsApart(s, e, a);
      OpeningQuoteBeforeLetter(s, t, e, a, c);
      if OpeningQuoteAt(s, e).Some? {
        QuotedValueLocal(s, t, OpeningQuoteAt(s, e).value, c);
      }
    }
  }

  /** A closing quote before `m` is found again, at the same place, in a text that agrees up to `m`. */
  lemma QuotedValueLocal(s: string, t: string, q: nat, m: nat)
    requires AgreeUpTo(s, t, m) && q + 1 < m && s[q] == '"' && s[m - 1] == '"'
    ensures QuotedValueAfter(t, q) == QuotedValueAfter(s, q)
  {
    var found := IndexOfFrom(s, '"', q + 1);
    assert found.Some? && found.value <= m - 1;
    IndexOfFromLocal(s, t, '"', q + 1, m);
  }

  /** At the matching `version` word the rewritten text captures exactly the new version. */
  lemma AssignmentAfterRewrite(s: string, t: string, a: nat, c: nat, d: nat, v: string)
    requires a <= |s| && VersionAssignmentAt(s, a) == Some((c, d))
    requires |v| > 0 && '"' !in v && t == s[..c] + v + s[d..]
    ensures VersionAssignmentAt(t, a) == Some((c, c + |v|))
  {
    AgreeWithReplacement(s, c, v, s[d..]);
    OpeningQuoteLocal(s, t, a, c - 1, c);
    ReplacedValueSpan(s, t, c, d, v);
  }

  /** Replacing a quoted value by one without quotes leaves a quoted value spanning exactly the new one. */
  lemma ReplacedValueSpan(s: string, t: string, c: nat, d: nat, v: string)
    requires QuotedSpan(s, c, d)
    requires |v| > 0 && '"' !in v && t == s[..c] + v + s[d..]
    ensures c - 1 < |t| && t[c - 1] == '"' && QuotedValueAfter(t, c - 1) == Some((c, c + |v|))
  {
    assert t[c - 1] == s[c - 1];
    assert t[c..c + |v|] == v;
    assert t[c + |v|] == s[d];
    IndexAfterReplacement(t, c, v, '"');
  }

  /** The lazy scan reaches the same `version` line in the rewritten text. */
  lemma {:induction false} VersionLineAfterRewrite(s: string, t: string, p: nat, a: nat, c: nat, d: nat)
    requires p <= a <= |s| && p <= |t|
    requires VersionLineFrom(s, p) == Some(a) && VersionAssignmentAt(s, a) == Some((c, d))
    requires AgreeUpTo(s, t, c) && a <= |t| && VersionAssignmentAt(t, a).Some?
    ensures VersionLineFrom(t, p) == Some(a)
    decreases a - p
  {
    LineCandidateLocal(s, t, p, a, c, d);
    if !LineHoldsAssignment(s, p) {
      VersionLineAfterRewrite(s, t, p + 1, a, c, d);
    }
  }

  /** A line tried before the matching one is judged alike in both texts. */
  lemma LineCandidateLocal(s: string, t: string, p: nat, a: nat, c: nat, d: nat)
    requires p <= a <= |s| && p <= |t|
    requires VersionLineFrom(s, p) == Some(a) && VersionAssignmentAt(s, a) == Some((c, d))
    requires AgreeUpTo(s, t, c) && a <= |t| && VersionAssignmentAt(t, a).Some?
    ensures SkipSpaces(t, p, true) == SkipSpaces(s, p, true)
    ensures LineHoldsAssignment(t, p) == LineHoldsAssignment(s, p)
    ensures !LineHoldsAssignment(s, p) ==> p < a
  {
    assert s[a] == s[a..a + 7][0] == 'v';
    var e := SkipSpaces(s, p, true);
    SkipStopsAt(s, p, a);
    SkipSpacesLocal(s, t, p, c, true);
    assert p > 0 ==> t[p - 1] == s[p - 1];
    if IsLineStart(s, p) && e != a {
      AssignmentBeforeMatchIsLocal(s, t, e, a, c, d);
    }
  }

  /** After the version is replaced, the pattern finds the new version at the same place. */
  lemma CargoSpanAfterRewrite(s: string, t: string, c: nat, d: nat, v: string)
    requires CargoVersionSpan(s) == Some((c, d))
    requires |v| > 0 && '"' !in v && t == s[..c] + v + s[d..]
    ensures CargoVersionSpan(t) == Some((c, c + |v|))
  {
    var p := PackageBodyStart(s).value;
    var a := VersionLineFrom(s, p).value;
    AgreeWithReplacement(s, c, v, s[d..]);
    FindFromLocal(s, t, PackageHeader, 0, c);
    assert PackageBodyStart(t) == Some(p);
    AssignmentAfterRewrite(s, t, a, c, d, v);
    VersionLineAfterRewrite(s, t, p, a, c, d);
  }

  /**
   * `writeCargoVersion` then `readCargoVersion` gives the written version,
   * and the file is the old text with only the version replaced.
   */
  lemma CargoWriteThenRead(files: FileStore, path: string, version: string)
    requires WriteCargoVersion(files, path, version).Ok?
    requires |version| > 0 && '"' !in version
    ensures var text := files[path].text;
            var span := CargoVersionSpan(text).value;
            WriteCargoVersion(files, path, version).value
              == files[path := Text(text[..span.0] + version + text[span.1..])]
    ensures ReadCargoVersion(WriteCargoVersion(files, path, version).value, path) == Ok(version)
  {
    var text := files[path].text;
    var span := CargoVersionSpan(text).value;
    var t := text[..span.0] + version + text[span.1..];
    var written := files[path := Text(t)];
    assert WriteCargoVersion(files, path, version).value == written;
    CargoSpanAfterRewrite(text, t, span.0, span.1, version);
    assert t[span.0..span.0 + |version|] == version;
    assert ReadText(written, path) == Ok(t);
  }

  /** Writing the version a Cargo.toml already holds is refused: the text would not change. */
  lemma CargoWriteOfCurrentVersionFails(files: FileStore, path: string)
    requires ReadCargoVersion(files, path).Ok?
    ensures WriteCargoVersion(files, path, ReadCargoVersion(files, path).value) == Err(CargoVersionNotUpdated(path))
  {
  }

  /** So the same version can be written to a Cargo.toml once, and a second write fails. */
  lemma CargoSecondWriteFails(files: FileStore, path: string, version: string)
    requires WriteCargoVersion(files, path, version).Ok?
    requires |version| > 0 && '"' !in version
    ensures WriteCargoVersion(WriteCargoVersion(files, path, version).value, path, version)
              == Err(CargoVersionNotUpdated(path))
  {
    CargoWriteThenRead(files, path, version);
    CargoWriteOfCurrentVersionFails(WriteCargoVersion(files, path, version).value, path);
  }
}

module ReleaseLockAdapter {
  import opened Wrappers
  import opened Strings
  import opened ReleaseBase
  import ReleaseAdapters

  /**
   * The literal part of the lock-file pattern
   * `\[\[package\]\]\nname = "<name>"\nversion = "([^"]+)"`; the package
   * name is escaped, so it matches itself.
   */
  function LockRecordHead(name: string): (h: string)
    ensures |h| > 0 && h[|h| - 1] == '"'
  {
    "[[package]]\nname = \"" + name + "\"\nversion = \""
  }

  /** `([^"]+)"` from `c`: the index of the closing quote. */
  function LockCaptureEnd(s: string, c: nat): (r: Option<nat>)
    requires c <= |s|
    ensures r.Some? ==> c < r.value < |s| && s[r.value] == '"'
    ensures r.Some? ==> forall k :: c <= k < r.value ==> s[k] != '"'
  {
    match IndexOfFrom(s, '"', c)
    case None => None
    case Some(d) => if d == c then None else Some(d)
  }

  /** The whole pattern matches at `i`. */
  predicate LockRecordAt(s: string, name: string, i: nat) {
    OccursAt(s, LockRecordHead(name), i) && LockCaptureEnd(s, i + |LockRecordHead(name)|).Some?
  }

  /** The leftmost match at or after `i`. */
  function LockRecordFrom(s: string, name: string, i: nat): (r: Option<nat>)
    ensures r.Some? ==> i <= r.value && LockRecordAt(s, name, r.value)
    decreases |s| + 1 - i
  {
    if i > |s| then None
    else if LockRecordAt(s, name, i) then Some(i)
    else LockRecordFrom(s, name, i + 1)
  }

  /** The scan finds the leftmost match: none starts between `i` and the one found, or anywhere after `i` when none is found. */
  lemma {:induction false} LockRecordFromIsLeftmost(s: string, name: string, i: nat)
    ensures LockRecordFrom(s, name, i).Some? ==>
              forall k :: i <= k < LockRecordFrom(s, name, i).value ==> !LockRecordAt(s, name, k)
    ensures LockRecordFrom(s, name, i).None? ==> forall k :: i <= k ==> !LockRecordAt(s, name, k)
    decreases |s| + 1 - i
  {
    if i <= |s| && !LockRecordAt(s, name, i) {
      LockRecordFromIsLeftmost(s, name, i + 1);
    } else if i > |s| {
      forall k | i <= k ensures !LockRecordAt(s, name, k) {
        assert !OccursAt(s, LockRecordHead(name), k);
      }
    }
  }

  /** The bounds of the version captured by the leftmost record for `name`. */
  function LockVersionSpan(s: string, name: string): (r: Option<(nat, nat)>)
    ensures r.Some? ==> 0 < r.value.0 < r.value.1 < |s| && s[r.value.1] == '"'
    ensures r.Some? ==> forall k :: r.value.0 <= k < r.value.1 ==> s[k] != '"'
  {
    match LockRecordFrom(s, name, 0)
    case None => None
    case Some(i) =>
      var c := i + |LockRecordHead(name)|;
      Some((c, LockCaptureEnd(s, c).value))
  }

  /** `readCargoLockPackageVersion`: a missing lock file or a missing record reads as no version. */
  function ReadLockVersion(files: FileStore, path: string, name: string): (r: Result<Option<string>, ReleaseError>)
    ensures path !in files ==> r == Ok(None)
    ensures path in files && files[path].Text? ==>
              r.Ok? && (r.value.Some? <==> LockVersionSpan(files[path].text, name).Some?)
    ensures r.Ok? && r.value.Some? ==> |r.value.value| > 0 && '"' !in r.value.value
  {
    if path !in files then Ok(None)
    else
      match ReadText(files, path)
      case Err(e) => Err(e)
      case Ok(text) =>
        match LockVersionSpan(text, name)
        case None => Ok(None)
        case Some((c, d)) => Ok(Some(text[c..d]))
  }

  /**
   * `writeCargoLockPackageVersion`: replace the captured version; a
   * missing file, a missing record or an unchanged text writes nothing.
   */
  function WriteLockVersion(files: FileStore, path: string, name: string, version: string)
    : (r: Result<FileStore, ReleaseError>)
    ensures r.Ok? ==> r.value.Keys == files.Keys && forall p :: p in files && p != path ==> r.value[p] == files[p]
    ensures (path !in files || (files[path].Text? && LockVersionSpan(files[path].text, name).None?))
              ==> r == Ok(files)
    ensures path in files && files[path].Text? ==> r.Ok?
  {
    if path !in files then Ok(files)
    else
      match ReadText(files, path)
      case Err(e) => Err(e)
      case Ok(text) =>
        match LockVersionSpan(text, name)
        case None => Ok(files)
        case Some((c, d)) =>
          var replaced := text[..c] + version + text[d..];
          if replaced == text then Ok(files) else Ok(files[path := Text(replaced)])
  }

  /** A candidate tried before the match reads nothing beyond the match's opening quote. */
  lemma RecordBeforeMatchIsLocal(s: string, t: string, name: string, j: nat, i: nat)
    requires j < i && LockRecordAt(s, name, i)
    requires AgreeUpTo(s, t, i + |LockRecordHead(name)|)
    ensures LockRecordAt(t, name, j) == LockRecordAt(s, name, j)
  {
    var h := LockRecordHead(name);
    var c := i + |h|;
    OccursAtLocal(s, t, h, j, c);
    if OccursAt(s, h, j) {
      assert s[c - 1] == s[i..c][|h| - 1] == '"';
      var found := IndexOfFrom(s, '"', j + |h|);
      assert found.Some? && found.value <= c - 1;
      IndexOfFromLocal(s, t, '"', j + |h|, c);
    }
  }

  /** The leftmost scan reaches the same record in a text that agrees up to its capture. */
  lemma {:induction false} RecordFromLocal(s: string, t: string, name: string, j: nat, i: nat)
    requires j <= i && LockRecordFrom(s, name, j) == Some(i)
    requires AgreeUpTo(s, t, i + |LockRecordHead(name)|) && LockRecordAt(t, name, i)
    ensures LockRecordFrom(t, name, j) == Some(i)
    decreases i - j
  {
    if j < i {
      RecordBeforeMatchIsLocal(s, t, name, j, i);
      RecordFromLocal(s, t, name, j + 1, i);
    }
  }

  /**
   * `t` is `s` with the version that starts at `c` replaced by `v`: the
   * two agree before `c`, and `v` stands at `c` followed by the closing
   * quote.
   */
  predicate RewrittenAt(s: string, t: string, c: nat, v: string) {
    AgreeUpTo(s, t, c) && c + |v| < |t| && t[c..c + |v|] == v && t[c + |v|] == '"'
  }

  lemma SpliceIsRewrite(s: string, c: nat, d: nat, v: string)
    requires c <= d < |s| && s[d] == '"'
    ensures RewrittenAt(s, s[..c] + v + s[d..], c, v)
  {
    var t := s[..c] + v + s[d..];
    AgreeWithReplacement(s, c, v, s[d..]);
    assert t[c..c + |v|] == v;
    assert t[c + |v|] == s[d];
  }

  /** At the matching record the rewritten text captures exactly the new version. */
  lemma RecordAfterRewrite(s: string, t: string, name: string, i: nat, v: string)
    requires LockRecordAt(s, name, i)
    requires |v| > 0 && '"' !in v && RewrittenAt(s, t, i + |LockRecordHead(name)|, v)
    ensures LockRecordAt(t, name, i)
    ensures LockCaptureEnd(t, i + |LockRecordHead(name)|) == Some(i + |LockRecordHead(name)| + |v|)
  {
    var c := i + |LockRecordHead(name)|;
    OccursAtLocal(s, t, LockRecordHead(name), i, c);
    IndexAfterReplacement(t, c, v, '"');
  }

  /** After the version is replaced, the leftmost record is the same one, now around the new version. */
  lemma SpanAfterRewrite(s: string, t: string, name: string, c: nat, v: string)
    requires LockVersionSpan(s, name).Some? && LockVersionSpan(s, name).value.0 == c
    requires |v| > 0 && '"' !in v && RewrittenAt(s, t, c, v)
    ensures LockVersionSpan(t, name) == Some((c, c + |v|))
  {
    var i := LockRecordFrom(s, name, 0).value;
    assert c == i + |LockRecordHead(name)|;
    RecordAfterRewrite(s, t, name, i, v);
    RecordFromLocal(s, t, name, 0, i);
    SpanOfRecord(t, name, i, c, c + |v|);
  }

  /** The span is read off the leftmost record: from the end of its head to its closing quote. */
  lemma SpanOfRecord(t: string, name: string, i: nat, c: nat, e: nat)
    requires LockRecordFrom(t, name, 0) == Some(i) && c == i + |LockRecordHead(name)|
    requires c <= |t| && LockCaptureEnd(t, c) == Some(e)
    ensures LockVersionSpan(t, name) == Some((c, e))
  {
  }

  /** Writing a package's version into a lock file that holds its record, then reading it, gives that version. */
  lemma LockWriteThenRead(files: FileStore, path: string, name: string, version: string)
    requires path in files && files[path].Text? && LockVersionSpan(files[path].text, name).Some?
    requires |version| > 0 && '"' !in version
    ensures ReadLockVersion(WriteLockVersion(files, path, name, version).value, path, name) == Ok(Some(version))
  {
    var text := files[path].text;
    var span := LockVersionSpan(text, name).value;
    var t := text[..span.0] + version + text[span.1..];
    var written := files[path := Text(t)];
    LockWriteStores(files, path, name, version);
    SpliceIsRewrite(text, span.0, span.1, version);
    SpanAfterRewrite(text, t, name, span.0, version);
    assert t[span.0..span.0 + |version|] == version;
    assert ReadText(written, path) == Ok(t);
  }

  /** Writing into a lock file that holds the record stores the text with the version replaced. */
  lemma LockWriteStores(files: FileStore, path: string, name: string, version: string)
    requires path in files && files[path].Text? && LockVersionSpan(files[path].text, name).Some?
    ensures var text := files[path].text;
            var span := LockVersionSpan(text, name).value;
            WriteLockVersion(files, path, name, version) == Ok(files[path := Text(text[..span.0] + version + text[span.1..])])
  {
    var text := files[path].text;
    var span := LockVersionSpan(text, name).value;
    var t := text[..span.0] + version + text[span.1..];
    if t == text {
      assert files[path := Text(t)] == files;
    }
  }

  /** Writing the same version a second time changes nothing. */
  lemma LockWriteIdempotent(files: FileStore, path: string, name: string, version: string)
    requires WriteLockVersion(files, path, name, version).Ok?
    requires |version| > 0 && '"' !in version
    ensures var once := WriteLockVersion(files, path, name, version).value;
            WriteLockVersion(once, path, name, version) == Ok(once)
  {
    if path in files && LockVersionSpan(files[path].text, name).Some? {
      var text := files[path].text;
      var span := LockVersionSpan(text, name).value;
      var t := text[..span.0] + version + text[span.1..];
      SpliceIsRewrite(text, span.0, span.1, version);
      SpanAfterRewrite(text, t, name, span.0, version);
      assert t[span.0..span.0 + |version|] == version;
      ReleaseAdapters.SpliceUnchanged(t, span.0, span.0 + |version|, version);
      ReleaseAdapters.SpliceUnchanged(text, span.0, span.1, version);
    }
  }
}
