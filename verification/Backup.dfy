/** Backup bundles: staged publication, the manifest, and the verifier that decides whether a bundle is
    accepted.

    A bundle is the set of its files by path.  The digest, the text form of JSON and Python's str() and
    int() conversions are parameters.
 */
module Backup {
  import opened Wrappers

  type Bytes = seq<Byte>
  type Path = seq<string>
  type Files = map<Path, Bytes>

  // ----- paths -----

  /** The parts of a text between slashes. */
  function Parts(s: string): (parts: seq<string>)
    ensures |parts| > 0
  {
    if s == "" then [""]
    else
      var rest := Parts(s[1..]);
      if s[0] == '/' then [""] + rest else [[s[0]] + rest[0]] + rest[1..]
  }

  predicate HasDoubleSlash(s: string) {
    |s| >= 2 && ((s[0] == '/' && s[1] == '/') || HasDoubleSlash(s[1..]))
  }

  /** What a pure path keeps of its parts. */
  function Kept(parts: seq<string>): seq<string> {
    if parts == [] then []
    else (if parts[0] == "" || parts[0] == "." then [] else [parts[0]]) + Kept(parts[1..])
  }

  /** _resolve_bundle_path, relative to the bundle. */
  function Resolve(relative: string): Option<Path> {
    if relative == "" || '\\' in relative || ':' in relative || HasDoubleSlash(relative) then None
    else if relative[0] == '/' || ".." in Kept(Parts(relative)) then None
    else Some(Kept(Parts(relative)))
  }

  predicate KeyChar(c: char) {
    'a' <= c <= 'z' || '0' <= c <= '9' || c == '.' || c == '_' || c == '-'
  }

  predicate ValidSegment(s: string) {
    s != "" && ('a' <= s[0] <= 'z' || '0' <= s[0] <= '9') && forall i :: 0 <= i < |s| ==> KeyChar(s[i])
  }

  /** validate_storage_key */
  predicate ValidKey(key: string) {
    forall i :: 0 <= i < |Parts(key)| ==> ValidSegment(Parts(key)[i])
  }

  // ----- the manifest -----

  /** The field names of the manifest and its entries, and any other name. */
  datatype Field = VERSION | BACKUP_ID | CREATED_AT | APPLICATION_VERSION | SCHEMA_REVISION | METADATA_EXPORT_REFERENCE
                 | METADATA_EXPORT_SHA256 | FILES | STATUS | FILE_ID | STORAGE_KEY | BUNDLE_PATH | SIZE_BYTES | SHA256
                 | OTHER(name: string)

  datatype Json = JNull | JInt(i: int) | JStr(s: string) | JList(items: seq<Json>) | JObj(fields: map<Field, Json>)

  datatype Entry = Entry(fileId: string, storageKey: string, bundlePath: string, size: int, sha256: string)

  datatype Manifest = Manifest(
    version: int, backupId: string, createdAt: string, applicationVersion: string, schemaRevision: string,
    metadataReference: Option<string>, metadataSha256: Option<string>, files: seq<Entry>, status: string)

  const MANIFEST_VERSION := 1
  const VERIFIED := "VERIFIED"

  function JOption(s: Option<string>): Json {
    if s.None? then JNull else JStr(s.value)
  }

  function EntryDict(e: Entry): Json {
    JObj(map[FILE_ID := JStr(e.fileId), STORAGE_KEY := JStr(e.storageKey), BUNDLE_PATH := JStr(e.bundlePath),
             SIZE_BYTES := JInt(e.size), SHA256 := JStr(e.sha256)])
  }

  function EntryDicts(files: seq<Entry>): seq<Json> {
    seq(|files|, i requires 0 <= i < |files| => EntryDict(files[i]))
  }

  /** _manifest_dict */
  function ManifestDict(m: Manifest): Json {
    JObj(map[VERSION := JInt(m.version), BACKUP_ID := JStr(m.backupId), CREATED_AT := JStr(m.createdAt),
             APPLICATION_VERSION := JStr(m.applicationVersion), SCHEMA_REVISION := JStr(m.schemaRevision),
             METADATA_EXPORT_REFERENCE := JOption(m.metadataReference),
             METADATA_EXPORT_SHA256 := JOption(m.metadataSha256),
             FILES := JList(EntryDicts(m.files)), STATUS := JStr(m.status)])
  }

  const REQUIRED := {VERSION, BACKUP_ID, CREATED_AT, APPLICATION_VERSION, SCHEMA_REVISION,
                     METADATA_EXPORT_REFERENCE, METADATA_EXPORT_SHA256, FILES, STATUS}

  const ENTRY_FIELDS := {FILE_ID, STORAGE_KEY, BUNDLE_PATH, SIZE_BYTES, SHA256}

  /** Python's str() and int() on parsed JSON; int() may fail. */
  datatype Conversions = Conversions(str: Json -> string, int_: Json -> Option<int>)

  ghost predicate LawfulConversions(conv: Conversions) {
    (forall s :: conv.str(JStr(s)) == s) && (forall i :: conv.int_(JInt(i)) == Some(i))
  }

  function ParseEntry(j: Json, conv: Conversions): Option<Entry> {
    if !j.JObj? || !(ENTRY_FIELDS <= j.fields.Keys) then None
    else
      match conv.int_(j.fields[SIZE_BYTES])
      case None => None
      case Some(size) =>
        Some(Entry(conv.str(j.fields[FILE_ID]), conv.str(j.fields[STORAGE_KEY]), conv.str(j.fields[BUNDLE_PATH]), size,
                   conv.str(j.fields[SHA256])))
  }

  function ParseEntries(items: seq<Json>, conv: Conversions): Option<seq<Entry>> {
    if items == [] then Some([])
    else
      match ParseEntry(items[0], conv)
      case None => None
      case Some(e) =>
        match ParseEntries(items[1..], conv)
        case None => None
        case Some(rest) => Some([e] + rest)
  }

  function ParseOption(j: Json, conv: Conversions): Option<string> {
    if j == JNull then None else Some(conv.str(j))
  }

  /** _parse_manifest */
  function ParseManifest(j: Json, conv: Conversions): Option<Manifest> {
    if !j.JObj? || j.fields.Keys != REQUIRED || !j.fields[FILES].JList? then None
    else
      match ParseEntries(j.fields[FILES].items, conv)
      case None => None
      case Some(files) =>
        match conv.int_(j.fields[VERSION])
        case None => None
        case Some(version) =>
          Some(Manifest(version, conv.str(j.fields[BACKUP_ID]), conv.str(j.fields[CREATED_AT]),
                        conv.str(j.fields[APPLICATION_VERSION]), conv.str(j.fields[SCHEMA_REVISION]),
                        ParseOption(j.fields[METADATA_EXPORT_REFERENCE], conv),
                        ParseOption(j.fields[METADATA_EXPORT_SHA256], conv),
                        files, conv.str(j.fields[STATUS])))
  }

  lemma {:induction false} EntriesParseBack(files: seq<Entry>, conv: Conversions)
    requires LawfulConversions(conv)
    ensures ParseEntries(EntryDicts(files), conv) == Some(files)
    decreases |files|
  {
    if files != [] {
      var items, rest := EntryDicts(files), files[1..];
      assert items[1..] == EntryDicts(rest);
      EntriesParseBack(rest, conv);
      assert ParseEntry(items[0], conv) == Some(files[0]);
      assert [files[0]] + rest == files;
    }
  }

  lemma ManifestFields(m: Manifest)
    ensures ManifestDict(m).fields.Keys == REQUIRED
    ensures ManifestDict(m).fields[FILES] == JList(EntryDicts(m.files))
  {
  }

  /** The written manifest parses back to itself. */
  lemma ManifestParsesBack(m: Manifest, conv: Conversions)
    requires LawfulConversions(conv)
    ensures ParseManifest(ManifestDict(m), conv) == Some(m)
  {
    EntriesParseBack(m.files, conv);
    ManifestFields(m);
  }

  // ----- the checksum file -----

  predicate IsHex(c: char) {
    '0' <= c <= '9' || 'a' <= c <= 'f'
  }

  predicate HexDigest(s: string) {
    |s| == 64 && forall i :: 0 <= i < |s| ==> IsHex(s[i])
  }

  function Ascii(s: string): Bytes
    requires forall i :: 0 <= i < |s| ==> s[i] < 128 as char
  {
    seq(|s|, i requires 0 <= i < |s| => s[i] as int)
  }

  function AsText(b: Bytes): Option<string> {
    if exists i :: 0 <= i < |b| && b[i] >= 128 then None
    else Some(seq(|b|, i requires 0 <= i < |b| => b[i] as char))
  }

  function LowerChar(c: char): char {
    if 'A' <= c <= 'Z' then c - 'A' + 'a' else c
  }

  /** strip().lower() */
  function Cleaned(s: string): string {
    var t := Strip(s);
    seq(|t|, i requires 0 <= i < |t| => LowerChar(t[i]))
  }

  lemma CleanedDigest(digest: string)
    requires HexDigest(digest)
    ensures AsText(Ascii(digest + "\n")) == Some(digest + "\n")
    ensures Cleaned(digest + "\n") == digest
  {
    var s := digest + "\n";
    assert AsText(Ascii(s)).value == s;
    assert !IsSpace(s[0]) && IsSpace(s[|s| - 1]);
    assert s[..|s| - 1] == digest && !IsSpace(digest[63]);
    assert StripRight(s) == StripRight(digest) == digest;
  }

  // ----- verification -----

  datatype Issue =
    | ManifestMissing | ManifestChecksumMismatch | ManifestInvalid | VersionOrStatusInvalid
    | UnsafePath(id: string) | DuplicateKey(id: string) | Missing(id: string) | Tampered(id: string)
    | MetadataUnsafePath | MetadataMissing | MetadataTampered

  datatype Verification = Verification(valid: bool, backupId: Option<string>, checked: nat, issues: seq<Issue>)

  const MANIFEST: Path := ["manifest.json"]
  const CHECKSUM: Path := ["manifest.sha256"]

  type Sha = Bytes -> string

  datatype Codec = Codec(dump: Json -> Bytes, load: Bytes -> Option<Json>)

  ghost predicate Lawful(codec: Codec) {
    forall j :: codec.load(codec.dump(j)) == Some(j)
  }

  ghost predicate DigestsAreHex(sha: Sha) {
    forall b :: HexDigest(sha(b))
  }

  /** The verifier's running state. */
  datatype Tally = Tally(issues: seq<Issue>, checked: nat, seen: set<string>)

  function CheckEntry(t: Tally, files: Files, e: Entry, sha: Sha): Tally {
    if !ValidKey(e.storageKey) || Resolve(e.bundlePath).None? then t.(issues := t.issues + [UnsafePath(e.fileId)])
    else if e.storageKey in t.seen then t.(issues := t.issues + [DuplicateKey(e.fileId)])
    else
      var path := Resolve(e.bundlePath).value;
      var u := t.(seen := t.seen + {e.storageKey});
      if path !in files then u.(issues := u.issues + [Missing(e.fileId)])
      else if |files[path]| != e.size || sha(files[path]) != e.sha256 then
        u.(checked := u.checked + 1, issues := u.issues + [Tampered(e.fileId)])
      else u.(checked := u.checked + 1)
  }

  function CheckEntries(t: Tally, files: Files, entries: seq<Entry>, sha: Sha): Tally {
    if entries == [] then t
    else CheckEntry(CheckEntries(t, files, entries[..|entries| - 1], sha), files, entries[|entries| - 1], sha)
  }

  /** What is wrong with the metadata export, if anything. */
  function CheckMetadata(files: Files, m: Manifest, sha: Sha): seq<Issue> {
    if m.metadataReference.None? || m.metadataReference.value == "" then []
    else
      match Resolve(m.metadataReference.value)
      case None => [MetadataUnsafePath]
      case Some(path) =>
        if path !in files then [MetadataMissing]
        else if m.metadataSha256 != Some(sha(files[path])) then [MetadataTampered]
        else []
  }

  function Opening(m: Manifest): seq<Issue> {
    if m.version != MANIFEST_VERSION || m.status != VERIFIED then [VersionOrStatusInvalid] else []
  }

  function Verify(files: Files, sha: Sha, codec: Codec, conv: Conversions): Verification {
    if MANIFEST !in files || CHECKSUM !in files then Verification(false, None, 0, [ManifestMissing])
    else
      match AsText(files[CHECKSUM])
      case None => Verification(false, None, 0, [ManifestInvalid])
      case Some(text) =>
        if !HexDigest(Cleaned(text)) || sha(files[MANIFEST]) != Cleaned(text) then
          Verification(false, None, 0, [ManifestChecksumMismatch])
        else
          var parsed := match codec.load(files[MANIFEST]) case None => None case Some(j) => ParseManifest(j, conv);
          match parsed
          case None => Verification(false, None, 0, [ManifestInvalid])
          case Some(m) =>
            var t := CheckEntries(Tally(Opening(m), 0, {}), files, m.files, sha);
            var issues := t.issues + CheckMetadata(files, m, sha);
            Verification(issues == [], Some(m.backupId), t.checked, issues)
  }

  method VerifyBundle(files: Files, sha: Sha, codec: Codec, conv: Conversions) returns (r: Verification)
    ensures r == Verify(files, sha, codec, conv)
  {
    if MANIFEST !in files || CHECKSUM !in files {
      return Verification(false, None, 0, [ManifestMissing]);
    }
    var text := AsText(files[CHECKSUM]);
    if text.None? {
      return Verification(false, None, 0, [ManifestInvalid]);
    }
    if !HexDigest(Cleaned(text.value)) || sha(files[MANIFEST]) != Cleaned(text.value) {
      return Verification(false, None, 0, [ManifestChecksumMismatch]);
    }
    var raw := codec.load(files[MANIFEST]);
    if raw.None? || ParseManifest(raw.value, conv).None? {
      return Verification(false, None, 0, [ManifestInvalid]);
    }
    var manifest := ParseManifest(raw.value, conv).value;
    var issues := Opening(manifest);
    var checked := 0;
    var seenKeys: set<string> := {};
    for i := 0 to |manifest.files|
      invariant Tally(issues, checked, seenKeys)
        == CheckEntries(Tally(Opening(manifest), 0, {}), files, manifest.files[..i], sha)
    {
      var entry := manifest.files[i];
      assert manifest.files[..i + 1][..i] == manifest.files[..i];
      if !ValidKey(entry.storageKey) || Resolve(entry.bundlePath).None? {
        issues := issues + [UnsafePath(entry.fileId)];
        continue;
      }
      if entry.storageKey in seenKeys {
        issues := issues + [DuplicateKey(entry.fileId)];
        continue;
      }
      seenKeys := seenKeys + {entry.storageKey};
      var target := Resolve(entry.bundlePath).value;
      if target !in files {
        issues := issues + [Missing(entry.fileId)];
        continue;
      }
      checked := checked + 1;
      if |files[target]| != entry.size || sha(files[target]) != entry.sha256 {
        issues := issues + [Tampered(entry.fileId)];
      }
    }
    assert manifest.files[..|manifest.files|] == manifest.files;
    issues := issues + CheckMetadata(files, manifest, sha);
    return Verification(issues == [], Some(manifest.backupId), checked, issues);
  }

  // ----- what acceptance means -----

  /** The listed file is there, at its recorded size and digest, under a valid key and a safe path. */
  predicate Intact(files: Files, e: Entry, sha: Sha) {
    && ValidKey(e.storageKey) && Resolve(e.bundlePath).Some?
    && Resolve(e.bundlePath).value in files
    && |files[Resolve(e.bundlePath).value]| == e.size && sha(files[Resolve(e.bundlePath).value]) == e.sha256
  }

  ghost predicate DistinctKeys(entries: seq<Entry>) {
    forall i, j :: 0 <= i < j < |entries| ==> entries[i].storageKey != entries[j].storageKey
  }

  ghost predicate AllIntact(files: Files, entries: seq<Entry>, sha: Sha) {
    forall i :: 0 <= i < |entries| ==> Intact(files, entries[i], sha)
  }

  function KeysOf(entries: seq<Entry>): set<string> {
    set i | 0 <= i < |entries| :: entries[i].storageKey
  }

  lemma {:induction false} NoIssuesIff(files: Files, entries: seq<Entry>, sha: Sha, issues: seq<Issue>)
    ensures var t := CheckEntries(Tally(issues, 0, {}), files, entries, sha);
            && (t.issues == [] <==> issues == [] && DistinctKeys(entries) && AllIntact(files, entries, sha))
            && (t.issues == [] ==> t.checked == |entries| && t.seen == KeysOf(entries))
    decreases |entries|
  {
    if entries != [] {
      var front, last := entries[..|entries| - 1], entries[|entries| - 1];
      NoIssuesIff(files, front, sha, issues);
      OneMoreIsChecked(files, front, last, sha, issues, CheckEntries(Tally(issues, 0, {}), files, front, sha));
      assert entries == front + [last];
    }
  }

  lemma OneMoreIsChecked(files: Files, front: seq<Entry>, last: Entry, sha: Sha, issues: seq<Issue>, t: Tally)
    requires t.issues == [] <==> issues == [] && DistinctKeys(front) && AllIntact(files, front, sha)
    requires t.issues == [] ==> t.checked == |front| && t.seen == KeysOf(front)
    ensures var u, entries := CheckEntry(t, files, last, sha), front + [last];
            && (u.issues == [] <==> issues == [] && DistinctKeys(entries) && AllIntact(files, entries, sha))
            && (u.issues == [] ==> u.checked == |entries| && u.seen == KeysOf(entries))
  {
    CheckOne(t, files, last, sha);
    OneMore(files, front, last, sha);
  }

  lemma CheckOne(t: Tally, files: Files, e: Entry, sha: Sha)
    ensures var u := CheckEntry(t, files, e, sha);
            && (u.issues == [] <==> t.issues == [] && e.storageKey !in t.seen && Intact(files, e, sha))
            && (u.issues == [] ==> u.checked == t.checked + 1 && u.seen == t.seen + {e.storageKey})
  {
  }

  lemma OneMore(files: Files, entries: seq<Entry>, e: Entry, sha: Sha)
    ensures DistinctKeys(entries + [e]) <==> DistinctKeys(entries) && e.storageKey !in KeysOf(entries)
    ensures AllIntact(files, entries + [e], sha) <==> AllIntact(files, entries, sha) && Intact(files, e, sha)
    ensures KeysOf(entries + [e]) == KeysOf(entries) + {e.storageKey}
  {
    var more := entries + [e];
    assert forall i :: 0 <= i < |entries| ==> more[i] == entries[i];
    assert more[|entries|] == e;
    if AllIntact(files, more, sha) {
      forall i | 0 <= i < |entries| ensures Intact(files, entries[i], sha) { assert Intact(files, more[i], sha); }
      assert Intact(files, more[|entries|], sha);
    }
    if DistinctKeys(more) {
      forall i, j | 0 <= i < j < |entries| ensures entries[i].storageKey != entries[j].storageKey {
        assert more[i].storageKey != more[j].storageKey;
      }
    }
  }

  /** The manifest a bundle carries, if its checksum matches and it parses. */
  function ManifestOf(files: Files, sha: Sha, codec: Codec, conv: Conversions): Option<Manifest> {
    if MANIFEST !in files || CHECKSUM !in files || AsText(files[CHECKSUM]).None? then None
    else
      var expected := Cleaned(AsText(files[CHECKSUM]).value);
      if !HexDigest(expected) || sha(files[MANIFEST]) != expected then None
      else match codec.load(files[MANIFEST]) case None => None case Some(j) => ParseManifest(j, conv)
  }

  /** A bundle is accepted exactly when its manifest is genuine and every listed file and the metadata are
      intact under distinct keys; and then every entry has been checked. */
  lemma AcceptedIff(files: Files, sha: Sha, codec: Codec, conv: Conversions)
    ensures var m := ManifestOf(files, sha, codec, conv);
            Verify(files, sha, codec, conv).valid <==>
              && m.Some? && m.value.version == MANIFEST_VERSION && m.value.status == VERIFIED
              && DistinctKeys(m.value.files) && AllIntact(files, m.value.files, sha)
              && CheckMetadata(files, m.value, sha) == []
    ensures Verify(files, sha, codec, conv).valid ==>
      Verify(files, sha, codec, conv).checked == |ManifestOf(files, sha, codec, conv).value.files|
  {
    var m := ManifestOf(files, sha, codec, conv);
    if m.Some? { NoIssuesIff(files, m.value.files, sha, Opening(m.value)); }
  }

  // ----- writing a bundle -----

  datatype Managed = Managed(fileId: string, storageKey: string, size: int, sha256: string, ready: bool)

  /** A file can be created when nothing is at its path, no part of the path is a file, and it is not a
      directory. */
  predicate Creatable(files: Files, p: Path) {
    p != [] && forall q :: q in files ==> !(q <= p) && !(p <= q)
  }

  datatype Failure = NotReady | UnsafeKey | Unreadable | IntegrityFailed | UnsafeBundlePath | AlreadyExists

  datatype Written = Done(files: Files) | Failed(failure: Failure)

  function EntryOf(f: Managed): Entry {
    Entry(f.fileId, f.storageKey, "files/" + f.storageKey, f.size, f.sha256)
  }

  function WriteAt(files: Files, relative: string, content: Bytes): Written {
    match Resolve(relative)
    case None => Failed(UnsafeBundlePath)
    case Some(p) => if Creatable(files, p) then Done(files[p := content]) else Failed(AlreadyExists)
  }

  function WriteManaged(files: Files, f: Managed, storage: map<string, Bytes>, sha: Sha): Written {
    if !f.ready then Failed(NotReady)
    else if !ValidKey(f.storageKey) then Failed(UnsafeKey)
    else if f.storageKey !in storage then Failed(Unreadable)
    else
      var content := storage[f.storageKey];
      if |content| != f.size || sha(content) != f.sha256 then Failed(IntegrityFailed)
      else WriteAt(files, "files/" + f.storageKey, content)
  }

  function WriteAll(managed: seq<Managed>, storage: map<string, Bytes>, sha: Sha): Written {
    if managed == [] then Done(map[])
    else
      match WriteAll(managed[..|managed| - 1], storage, sha)
      case Failed(x) => Failed(x)
      case Done(files) => WriteManaged(files, managed[|managed| - 1], storage, sha)
  }

  datatype Header = Header(backupId: string, createdAt: string, applicationVersion: string, schemaRevision: string)

  /** An optional metadata export: its file name and content. */
  datatype Export = NoExport | Export(name: string, content: Bytes)

  function EntriesOf(managed: seq<Managed>): seq<Entry> {
    seq(|managed|, i requires 0 <= i < |managed| => EntryOf(managed[i]))
  }

  function ManifestFor(h: Header, managed: seq<Managed>, metadata: Export, sha: Sha): Manifest {
    Manifest(MANIFEST_VERSION, h.backupId, h.createdAt, h.applicationVersion, h.schemaRevision,
             if metadata.NoExport? then None else Some("metadata/" + metadata.name),
             if metadata.NoExport? then None else Some(sha(metadata.content)),
             EntriesOf(managed), VERIFIED)
  }

  function WriteExport(files: Files, metadata: Export): Written {
    if metadata.NoExport? then Done(files) else WriteAt(files, "metadata/" + metadata.name, metadata.content)
  }

  function WriteFile(files: Files, p: Path, content: Bytes): Written {
    if Creatable(files, p) then Done(files[p := content]) else Failed(AlreadyExists)
  }

  datatype Request = Request(header: Header, managed: seq<Managed>, storage: map<string, Bytes>, metadata: Export)

  function ManifestBytes(r: Request, sha: Sha, codec: Codec): Bytes {
    codec.dump(ManifestDict(ManifestFor(r.header, r.managed, r.metadata, sha)))
  }

  function ChecksumBytes(r: Request, sha: Sha, codec: Codec): Bytes {
    var text := sha(ManifestBytes(r, sha, codec)) + "\n";
    if forall i :: 0 <= i < |text| ==> text[i] < 128 as char then Ascii(text) else []
  }

  /** The staged bundle: managed files, metadata, manifest, checksum, in that order. */
  function Staged(r: Request, sha: Sha, codec: Codec): Written {
    match WriteAll(r.managed, r.storage, sha)
    case Failed(x) => Failed(x)
    case Done(files) =>
      match WriteExport(files, r.metadata)
      case Failed(x) => Failed(x)
      case Done(files) =>
        match WriteFile(files, MANIFEST, ManifestBytes(r, sha, codec))
        case Failed(x) => Failed(x)
        case Done(files) => WriteFile(files, CHECKSUM, ChecksumBytes(r, sha, codec))
  }

  /** Every managed file is in the bundle, with the content it has in storage. */
  ghost predicate Complete(files: Files, r: Request) {
    AllHeld(files, r.managed, r.storage)
  }

  predicate Holds(files: Files, f: Managed, storage: map<string, Bytes>) {
    var p := Resolve("files/" + f.storageKey);
    p.Some? && p.value in files && f.storageKey in storage && files[p.value] == storage[f.storageKey]
  }

  /** Nothing that is in a is changed in b. */
  ghost predicate Extends(a: Files, b: Files) {
    forall p :: p in a ==> p in b && b[p] == a[p]
  }

  lemma {:induction false} AllWritten(managed: seq<Managed>, storage: map<string, Bytes>, sha: Sha)
    requires WriteAll(managed, storage, sha).Done?
    ensures var files := WriteAll(managed, storage, sha).files;
            && DistinctKeys(EntriesOf(managed)) && AllIntact(files, EntriesOf(managed), sha)
            && AllHeld(files, managed, storage)
    decreases |managed|
  {
    if managed != [] {
      var front, last := managed[..|managed| - 1], managed[|managed| - 1];
      AllWritten(front, storage, sha);
      OneWritten(WriteAll(front, storage, sha).files, front, last, storage, sha);
      assert managed == front + [last];
    }
  }

  ghost predicate AllHeld(files: Files, managed: seq<Managed>, storage: map<string, Bytes>) {
    forall i :: 0 <= i < |managed| ==> Holds(files, managed[i], storage)
  }

  lemma OneWritten(before: Files, front: seq<Managed>, last: Managed, storage: map<string, Bytes>, sha: Sha)
    requires WriteManaged(before, last, storage, sha).Done?
    requires DistinctKeys(EntriesOf(front)) && AllIntact(before, EntriesOf(front), sha)
      && AllHeld(before, front, storage)
    ensures var files := WriteManaged(before, last, storage, sha).files;
            && DistinctKeys(EntriesOf(front + [last])) && AllIntact(files, EntriesOf(front + [last]), sha)
            && AllHeld(files, front + [last], storage)
  {
    var files := WriteManaged(before, last, storage, sha).files;
    assert EntriesOf(front + [last]) == EntriesOf(front) + [EntryOf(last)];
    FreshKey(before, front, last, sha);
    assert EntryOf(last).storageKey !in KeysOf(EntriesOf(front));
    assert Extends(before, files);
    IntactStays(before, files, EntriesOf(front), sha);
    OneMore(files, EntriesOf(front), EntryOf(last), sha);
    HeldStays(before, files, front, storage);
    forall i | 0 <= i < |front + [last]| ensures Holds(files, (front + [last])[i], storage) {
      if i < |front| { assert Holds(files, front[i], storage); }
    }
  }

  lemma HeldStays(a: Files, b: Files, managed: seq<Managed>, storage: map<string, Bytes>)
    requires Extends(a, b) && AllHeld(a, managed, storage)
    ensures AllHeld(b, managed, storage)
  {
    forall i | 0 <= i < |managed| ensures Holds(b, managed[i], storage) { assert Holds(a, managed[i], storage); }
  }

  /** A path that can still be created belongs to no key written so far. */
  lemma FreshKey(files: Files, managed: seq<Managed>, f: Managed, sha: Sha)
    requires AllIntact(files, EntriesOf(managed), sha)
    requires Resolve("files/" + f.storageKey).Some? && Creatable(files, Resolve("files/" + f.storageKey).value)
    ensures f.storageKey !in KeysOf(EntriesOf(managed))
  {
    forall i | 0 <= i < |managed| ensures managed[i].storageKey != f.storageKey {
      assert Intact(files, EntriesOf(managed)[i], sha);
    }
  }

  lemma IntactStays(a: Files, b: Files, entries: seq<Entry>, sha: Sha)
    requires Extends(a, b) && AllIntact(a, entries, sha)
    ensures AllIntact(b, entries, sha)
  {
    forall i | 0 <= i < |entries| ensures Intact(b, entries[i], sha) { assert Intact(a, entries[i], sha); }
  }

  lemma MetadataIsFine(a: Files, b: Files, r: Request, sha: Sha)
    requires WriteExport(a, r.metadata).Done? && Extends(WriteExport(a, r.metadata).files, b)
    ensures CheckMetadata(b, ManifestFor(r.header, r.managed, r.metadata, sha), sha) == []
  {
  }

  lemma ManifestIsFound(files: Files, r: Request, sha: Sha, codec: Codec, conv: Conversions)
    requires DigestsAreHex(sha) && Lawful(codec) && LawfulConversions(conv)
    requires MANIFEST in files && files[MANIFEST] == ManifestBytes(r, sha, codec)
    requires CHECKSUM in files && files[CHECKSUM] == ChecksumBytes(r, sha, codec)
    ensures ManifestOf(files, sha, codec, conv) == Some(ManifestFor(r.header, r.managed, r.metadata, sha))
  {
    var digest := sha(ManifestBytes(r, sha, codec));
    assert HexDigest(digest);
    CleanedDigest(digest);
    ManifestParsesBack(ManifestFor(r.header, r.managed, r.metadata, sha), conv);
    var j := ManifestDict(ManifestFor(r.header, r.managed, r.metadata, sha));
    assert codec.load(codec.dump(j)) == Some(j);
  }

  /** Whatever has been staged to the end is complete and accepted by the verifier, and its manifest reads
      back as the one that was written. */
  lemma StagedIsAccepted(r: Request, sha: Sha, codec: Codec, conv: Conversions)
    requires DigestsAreHex(sha) && Lawful(codec) && LawfulConversions(conv)
    requires Staged(r, sha, codec).Done?
    ensures var files := Staged(r, sha, codec).files;
            && Complete(files, r)
            && ManifestOf(files, sha, codec, conv) == Some(ManifestFor(r.header, r.managed, r.metadata, sha))
            && Verify(files, sha, codec, conv).valid && Verify(files, sha, codec, conv).checked == |r.managed|
  {
    var a := WriteAll(r.managed, r.storage, sha).files;
    var b := WriteExport(a, r.metadata).files;
    var c := WriteFile(b, MANIFEST, ManifestBytes(r, sha, codec)).files;
    var d := Staged(r, sha, codec).files;
    AllWritten(r.managed, r.storage, sha);
    assert Extends(a, b) && Extends(b, c) && Extends(c, d);
    assert Extends(b, d) && Extends(a, d);
    IntactStays(a, d, EntriesOf(r.managed), sha);
    HeldStays(a, d, r.managed, r.storage);
    MetadataIsFine(a, d, r, sha);
    assert MANIFEST in c && MANIFEST in d;
    ManifestIsFound(d, r, sha, codec, conv);
    AcceptedIff(d, sha, codec, conv);
  }

  // ----- publication -----

  datatype Disk = Disk(staging: Option<Files>, final: Option<Files>)

  /** A crash now leaves no bundle, or a complete one that is accepted. */
  ghost predicate CrashSafe(d: Disk, r: Request, sha: Sha, codec: Codec, conv: Conversions) {
    d.final.Some? ==> Complete(d.final.value, r) && Verify(d.final.value, sha, codec, conv).valid
  }

  class BackupService {
    const sha: Sha
    const codec: Codec
    const conv: Conversions
    var staging: Option<Files>
    var final: Option<Files>

    /** Every state of the disk since the service was made.  A crash in the middle of a write leaves a
        partly written staging file; the final bundle is as before the write. */
    ghost var history: seq<Disk>

    ghost predicate Valid()
      reads this
    {
      DigestsAreHex(sha) && Lawful(codec) && LawfulConversions(conv) && history != []
        && history[|history| - 1] == Disk(staging, final)
    }

    constructor (sha: Sha, codec: Codec, conv: Conversions)
      requires DigestsAreHex(sha) && Lawful(codec) && LawfulConversions(conv)
      ensures Valid() && staging == None && final == None && history == [Disk(None, None)]
      ensures this.sha == sha && this.codec == codec && this.conv == conv
    {
      this.sha, this.codec, this.conv := sha, codec, conv;
      staging, final := None, None;
      history := [Disk(None, None)];
    }

    /** One change of the staging directory. */
    method Stage(files: Option<Files>)
      requires Valid()
      modifies this`staging, this`history
      ensures Valid() && staging == files && history == old(history) + [Disk(files, final)]
    {
      staging := files;
      history := history + [Disk(staging, final)];
    }

    method StageNext(w: Written) returns (failure: Option<Failure>)
      requires Valid()
      modifies this`staging, this`history
      ensures Valid() && old(history) <= history
      ensures forall i :: |old(history)| <= i < |history| ==> history[i].final == final
      ensures match w
              case Done(files) => failure == None && staging == Some(files)
              case Failed(x) => failure == Some(x) && staging == old(staging)
    {
      match w {
        case Failed(x) => return Some(x);
        case Done(files) =>
          Stage(Some(files));
          return None;
      }
    }

    /** The staging steps of create. */
    method StageAll(r: Request) returns (failure: Option<Failure>)
      requires Valid() && staging == None
      modifies this`staging, this`history
      ensures Valid() && old(history) <= history
      ensures forall i :: |old(history)| <= i < |history| ==> history[i].final == final
      ensures match Staged(r, sha, codec)
              case Done(files) => failure == None && staging == Some(files)
              case Failed(x) => failure == Some(x)
    {
      Stage(Some(map[]));
      for i := 0 to |r.managed|
        invariant Valid() && old(history) <= history
        invariant forall k :: |old(history)| <= k < |history| ==> history[k].final == final
        invariant staging.Some? && WriteAll(r.managed[..i], r.storage, sha) == Done(staging.value)
      {
        assert r.managed[..i + 1][..i] == r.managed[..i];
        failure := StageNext(WriteManaged(staging.value, r.managed[i], r.storage, sha));
        if failure.Some? {
          FailedStays(r.managed, i + 1, r.storage, sha, failure.value);
          return;
        }
      }
      assert r.managed[..|r.managed|] == r.managed;
      failure := StageRest(r);
    }

    /** The files that follow the managed ones. */
    method StageRest(r: Request) returns (failure: Option<Failure>)
      requires Valid() && staging.Some? && WriteAll(r.managed, r.storage, sha) == Done(staging.value)
      modifies this`staging, this`history
      ensures Valid() && old(history) <= history
      ensures forall i :: |old(history)| <= i < |history| ==> history[i].final == final
      ensures match Staged(r, sha, codec)
              case Done(files) => failure == None && staging == Some(files)
              case Failed(x) => failure == Some(x)
    {
      failure := StageNext(WriteExport(staging.value, r.metadata));
      if failure.Some? {
        return;
      }
      failure := StageNext(WriteFile(staging.value, MANIFEST, ManifestBytes(r, sha, codec)));
      if failure.Some? {
        return;
      }
      failure := StageNext(WriteFile(staging.value, CHECKSUM, ChecksumBytes(r, sha, codec)));
    }

    /** create: at every point of it a crash leaves no bundle or a complete and accepted one.  It publishes
        exactly what could be staged, and otherwise removes the staging directory. */
    method Create(r: Request) returns (failure: Option<Failure>)
      requires Valid()
      modifies this
      ensures Valid() && old(history) <= history
      ensures old(final).Some? || old(staging).Some? ==>
        failure == Some(AlreadyExists) && final == old(final) && staging == old(staging) && history == old(history)
      ensures old(final).None? && old(staging).None? ==>
        && (forall i :: |old(history)| <= i < |history| ==> CrashSafe(history[i], r, sha, codec, conv))
        && staging == None
        && match Staged(r, sha, codec)
           case Done(files) => failure == None && final == Some(files)
           case Failed(x) => failure == Some(x) && final == None
    {
      if final.Some? || staging.Some? {
        return Some(AlreadyExists);
      }
      failure := StageAll(r);
      if failure.Some? {
        Stage(None);
        return;
      }
      var verification := VerifyBundle(staging.value, sha, codec, conv);
      StagedIsAccepted(r, sha, codec, conv);
      if !verification.valid {
        assert false; // a bundle staged to the end is never refused
      }
      final, staging := staging, None;
      history := history + [Disk(staging, final)];
    }
  }

  lemma {:induction false} FailedStays(managed: seq<Managed>, n: nat, storage: map<string, Bytes>, sha: Sha, x: Failure)
    requires n <= |managed| && WriteAll(managed[..n], storage, sha) == Failed(x)
    ensures WriteAll(managed, storage, sha) == Failed(x)
    decreases |managed|
  {
    if n == |managed| {
      assert managed[..n] == managed;
    } else {
      assert managed[..|managed| - 1][..n] == managed[..n];
      FailedStays(managed[..|managed| - 1], n, storage, sha, x);
    }
  }

  // ----- valid keys always have a safe place -----

  lemma {:induction false} PartsOfPrefix(s: string, rest: string)
    requires '/' !in s
    ensures Parts(s + ("/" + rest)) == [s] + Parts(rest)
    decreases |s|
  {
    if s == "" {
      assert s + ("/" + rest) == "/" + rest;
      assert ("/" + rest)[1..] == rest;
    } else {
      assert (s + ("/" + rest))[1..] == s[1..] + ("/" + rest);
      PartsOfPrefix(s[1..], rest);
      assert [s[0]] + s[1..] == s;
    }
  }

  predicate LaterPartsNonempty(s: string) {
    forall i :: 1 <= i < |Parts(s)| ==> Parts(s)[i] != ""
  }

  lemma {:induction false} NoDoubleSlash(s: string)
    requires LaterPartsNonempty(s)
    ensures !HasDoubleSlash(s)
    decreases |s|
  {
    if |s| >= 2 {
      var rest := Parts(s[1..]);
      assert forall i :: 1 <= i < |rest| ==> Parts(s)[if s[0] == '/' then i + 1 else i] == rest[i];
      NoDoubleSlash(s[1..]);
      if s[0] == '/' {
        assert Parts(s)[1] == rest[0];
      }
    }
  }

  lemma {:induction false} CharsOfParts(s: string, c: char)
    requires c != '/' && c in s
    ensures exists i :: 0 <= i < |Parts(s)| && c in Parts(s)[i]
    decreases |s|
  {
    var rest := Parts(s[1..]);
    if s[0] == c {
      assert c in Parts(s)[0];
    } else {
      CharsOfParts(s[1..], c);
      var i :| 0 <= i < |rest| && c in rest[i];
      if s[0] == '/' {
        assert Parts(s)[i + 1] == rest[i];
      } else if i == 0 {
        assert c in Parts(s)[0];
      } else {
        assert Parts(s)[i] == rest[i];
      }
    }
  }

  lemma {:induction false} KeepsAll(parts: seq<string>)
    requires forall i :: 0 <= i < |parts| ==> parts[i] != "" && parts[i] != "."
    ensures Kept(parts) == parts
    decreases |parts|
  {
    if parts != [] { KeepsAll(parts[1..]); }
  }

  predicate CleanPart(part: string) {
    part != "" && part != "." && part != ".." && '\\' !in part && ':' !in part
  }

  lemma CleanPathResolves(s: string)
    requires forall i :: 0 <= i < |Parts(s)| ==> CleanPart(Parts(s)[i])
    ensures Resolve(s) == Some(Parts(s))
  {
    NoDoubleSlash(s);
    if '\\' in s { CharsOfParts(s, '\\'); }
    if ':' in s { CharsOfParts(s, ':'); }
    KeepsAll(Parts(s));
    assert CleanPart(Parts(s)[0]);
  }

  lemma ValidIsClean(part: string)
    requires ValidSegment(part)
    ensures CleanPart(part)
  {
  }

  /** Putting the parts of a path together again. */
  function Whole(parts: seq<string>): string
    requires |parts| > 0
  {
    if |parts| == 1 then parts[0] else parts[0] + ("/" + Whole(parts[1..]))
  }

  lemma {:induction false} WholeOfParts(s: string)
    ensures Whole(Parts(s)) == s
    decreases |s|
  {
    if s != "" {
      var rest := Parts(s[1..]);
      WholeOfParts(s[1..]);
      assert [s[0]] + s[1..] == s;
      if s[0] == '/' {
        assert Parts(s)[1..] == rest;
      } else {
        assert Parts(s)[1..] == rest[1..];
      }
    }
  }

  /** A valid storage key resolves, below the bundle's files directory, to its own parts. */
  lemma ValidKeyResolves(key: string)
    requires ValidKey(key)
    ensures Resolve("files/" + key) == Some(["files"] + Parts(key))
  {
    var relative := "files" + ("/" + key);
    assert relative == "files/" + key;
    PartsOfPrefix("files", key);
    forall i | 0 <= i < |Parts(relative)| ensures CleanPart(Parts(relative)[i]) {
      if i == 0 { ValidIsClean("files"); } else { ValidIsClean(Parts(key)[i - 1]); }
    }
    CleanPathResolves(relative);
  }

  /** Different keys never share a path. */
  lemma KeysKeepApart(key: string, key': string)
    requires ValidKey(key) && ValidKey(key') && Resolve("files/" + key) == Resolve("files/" + key')
    ensures key == key'
  {
    ValidKeyResolves(key);
    ValidKeyResolves(key');
    assert (["files"] + Parts(key))[1..] == Parts(key) && (["files"] + Parts(key'))[1..] == Parts(key');
    WholeOfParts(key);
    WholeOfParts(key');
  }

  // ----- no path leaves the bundle -----

  lemma {:induction false} PartsHaveNoSlash(s: string)
    ensures forall i :: 0 <= i < |Parts(s)| ==> '/' !in Parts(s)[i]
    decreases |s|
  {
    if s != "" {
      PartsHaveNoSlash(s[1..]);
      var rest := Parts(s[1..]);
      forall i | 0 <= i < |Parts(s)| ensures '/' !in Parts(s)[i] {
        if s[0] == '/' {
          if i > 0 { assert Parts(s)[i] == rest[i - 1]; }
        } else if i > 0 {
          assert Parts(s)[i] == rest[i];
        }
      }
    }
  }

  lemma {:induction false} PartsComeFrom(s: string, i: nat, c: char)
    requires i < |Parts(s)| && c in Parts(s)[i]
    ensures c in s
    decreases |s|
  {
    if s != "" {
      var rest := Parts(s[1..]);
      if s[0] == '/' {
        if i > 0 { PartsComeFrom(s[1..], i - 1, c); }
      } else if i > 0 || c != s[0] {
        assert c in rest[i];
        PartsComeFrom(s[1..], i, c);
      }
    }
  }

  lemma {:induction false} KeptAre(parts: seq<string>, part: string)
    ensures part in Kept(parts) <==> part in parts && part != "" && part != "."
  {
    if parts != [] {
      KeptAre(parts[1..], part);
      assert parts == [parts[0]] + parts[1..];
    }
  }

  /** A path below the bundle: no part goes up, is empty, or names a drive or another separator. */
  predicate StaysInside(p: Path) {
    forall i :: 0 <= i < |p| ==> CleanPart(p[i]) && '/' !in p[i]
  }

  /** Whatever resolves, resolves to a path inside the bundle. */
  lemma ResolvedStaysInside(s: string)
    requires Resolve(s).Some?
    ensures StaysInside(Resolve(s).value)
  {
    var p := Resolve(s).value;
    PartsHaveNoSlash(s);
    forall i | 0 <= i < |p| ensures CleanPart(p[i]) && '/' !in p[i] {
      KeptAre(Parts(s), p[i]);
      var j :| 0 <= j < |Parts(s)| && Parts(s)[j] == p[i];
      if '\\' in p[i] { PartsComeFrom(s, j, '\\'); }
      if ':' in p[i] { PartsComeFrom(s, j, ':'); }
    }
  }

  lemma {:induction false} DoubleSlashIff(s: string)
    ensures HasDoubleSlash(s) <==> exists i :: 0 < i < |Parts(s)| - 1 && Parts(s)[i] == ""
    decreases |s|
  {
    if s != "" {
      DoubleSlashIff(s[1..]);
      var parts, rest := Parts(s), Parts(s[1..]);
      FirstPart(s[1..]);
      if s[0] == '/' {
        assert forall i :: 0 <= i < |rest| ==> parts[i + 1] == rest[i];
        if HasDoubleSlash(s) {
          if |s| >= 2 && s[1] == '/' {
            assert rest[0] == "" && |rest| > 1 && parts[1] == "";
          } else {
            var i :| 0 < i < |rest| - 1 && rest[i] == "";
            assert parts[i + 1] == "";
          }
        }
        if exists i :: 0 < i < |parts| - 1 && parts[i] == "" {
          var i :| 0 < i < |parts| - 1 && parts[i] == "";
          if i > 1 { assert rest[i - 1] == ""; } else { assert rest[0] == ""; }
        }
      } else {
        assert forall i :: 0 < i < |rest| ==> parts[i] == rest[i];
      }
    }
  }

  /** The first part is empty exactly for a text that is empty or starts with a slash. */
  lemma FirstPart(s: string)
    ensures Parts(s)[0] == "" <==> s == "" || s[0] == '/'
    ensures s != "" && s[0] == '/' ==> |Parts(s)| > 1
    ensures |Parts(s)| > 1 && Parts(s)[0] == "" ==> s != "" && s[0] == '/'
  {
  }

  /** What resolves, told by the parts alone: none of them goes up or holds a backslash or colon, and none is empty
      but the last, behind a closing slash. */
  lemma ResolvesIff(s: string)
    ensures Resolve(s).Some?
      <==> && Parts(s)[0] != ""
           && forall i :: 0 <= i < |Parts(s)| ==>
                && (Parts(s)[i] == "" ==> i == |Parts(s)| - 1)
                && Parts(s)[i] != ".." && '\\' !in Parts(s)[i] && ':' !in Parts(s)[i]
  {
    var parts := Parts(s);
    FirstPart(s);
    DoubleSlashIff(s);
    KeptAre(parts, "..");
    if '\\' in s { CharsOfParts(s, '\\'); }
    if ':' in s { CharsOfParts(s, ':'); }
    if Resolve(s).Some? {
      forall i | 0 <= i < |parts|
        ensures && (parts[i] == "" ==> i == |parts| - 1)
                && parts[i] != ".." && '\\' !in parts[i] && ':' !in parts[i]
      {
        assert parts[i] == ".." ==> ".." in parts;
        if '\\' in parts[i] { PartsComeFrom(s, i, '\\'); }
        if ':' in parts[i] { PartsComeFrom(s, i, ':'); }
      }
    }
  }

  /** A path that climbs is refused, wherever it climbs. */
  lemma ClimbingIsRefused(s: string, i: nat)
    requires i < |Parts(s)| && Parts(s)[i] == ".."
    ensures Resolve(s) == None
  {
    KeptAre(Parts(s), "..");
  }

  /** Every file that an accepted bundle lists, and its metadata, lies inside the bundle. */
  lemma AcceptedStaysInside(files: Files, sha: Sha, codec: Codec, conv: Conversions)
    requires Verify(files, sha, codec, conv).valid
    ensures var m := ManifestOf(files, sha, codec, conv);
            && m.Some?
            && (forall i :: 0 <= i < |m.value.files| ==>
                  var p := Resolve(m.value.files[i].bundlePath); p.Some? && StaysInside(p.value) && p.value in files)
            && (m.value.metadataReference.Some? && m.value.metadataReference.value != "" ==>
                  var p := Resolve(m.value.metadataReference.value);
                  p.Some? && StaysInside(p.value) && p.value in files)
  {
    AcceptedIff(files, sha, codec, conv);
    var m := ManifestOf(files, sha, codec, conv).value;
    forall i | 0 <= i < |m.files|
      ensures var p := Resolve(m.files[i].bundlePath); p.Some? && StaysInside(p.value) && p.value in files
    {
      assert Intact(files, m.files[i], sha);
      ResolvedStaysInside(m.files[i].bundlePath);
    }
    if m.metadataReference.Some? && m.metadataReference.value != "" {
      ResolvedStaysInside(m.metadataReference.value);
    }
  }

  // ----- what each issue says -----

  /** The entry has a valid key and a path inside the bundle. */
  predicate IsSafe(e: Entry) {
    ValidKey(e.storageKey) && Resolve(e.bundlePath).Some?
  }

  /** A safe entry before it has the same key. */
  predicate IsRepeated(entries: seq<Entry>, i: nat)
    requires i < |entries|
  {
    exists j :: 0 <= j < i && IsSafe(entries[j]) && entries[j].storageKey == entries[i].storageKey
  }

  /** The one issue the verifier is to raise for entry i, if any. */
  predicate Deserves(files: Files, entries: seq<Entry>, sha: Sha, i: nat, issue: Issue)
    requires i < |entries|
  {
    var e := entries[i];
    match issue
    case UnsafePath(id) => id == e.fileId && !IsSafe(e)
    case DuplicateKey(id) => id == e.fileId && IsSafe(e) && IsRepeated(entries, i)
    case Missing(id) =>
      id == e.fileId && IsSafe(e) && !IsRepeated(entries, i) && Resolve(e.bundlePath).value !in files
    case Tampered(id) =>
      && id == e.fileId && IsSafe(e) && !IsRepeated(entries, i) && Resolve(e.bundlePath).value in files
      && (|files[Resolve(e.bundlePath).value]| != e.size || sha(files[Resolve(e.bundlePath).value]) != e.sha256)
    case _ => false
  }

  function SafeKeys(entries: seq<Entry>): set<string> {
    set i | 0 <= i < |entries| && IsSafe(entries[i]) :: entries[i].storageKey
  }

  lemma DeservesStays(files: Files, front: seq<Entry>, last: Entry, sha: Sha, issue: Issue)
    ensures forall i :: 0 <= i < |front| ==>
      (Deserves(files, front + [last], sha, i, issue) <==> Deserves(files, front, sha, i, issue))
    ensures IsRepeated(front + [last], |front|) <==> last.storageKey in SafeKeys(front)
    ensures SafeKeys(front + [last]) == SafeKeys(front) + if IsSafe(last) then {last.storageKey} else {}
  {
    var more := front + [last];
    forall i | 0 <= i < |front| ensures IsRepeated(more, i) <==> IsRepeated(front, i) {
      assert forall j :: 0 <= j < |front| ==> more[j] == front[j];
    }
    assert forall j :: 0 <= j < |front| ==> more[j] == front[j];
    assert more[|front|] == last;
  }

  lemma {:induction false} EntriesReport(files: Files, entries: seq<Entry>, sha: Sha, opening: seq<Issue>, issue: Issue)
    ensures var t := CheckEntries(Tally(opening, 0, {}), files, entries, sha);
            && (issue in t.issues <==>
                issue in opening || exists i :: 0 <= i < |entries| && Deserves(files, entries, sha, i, issue))
            && t.seen == SafeKeys(entries)
    decreases |entries|
  {
    if entries != [] {
      var front, last := entries[..|entries| - 1], entries[|entries| - 1];
      var before := CheckEntries(Tally(opening, 0, {}), files, front, sha);
      var t := CheckEntry(before, files, last, sha);
      EntriesReport(files, front, sha, opening, issue);
      DeservesStays(files, front, last, sha, issue);
      assert entries == front + [last];
      LastReports(before, files, front, last, sha, issue);
      assert issue in t.issues <==> issue in before.issues || Deserves(files, entries, sha, |front|, issue);
      if exists i :: 0 <= i < |entries| && Deserves(files, entries, sha, i, issue) {
        var i :| 0 <= i < |entries| && Deserves(files, entries, sha, i, issue);
        if i < |front| { assert Deserves(files, front, sha, i, issue); }
      }
      if exists i :: 0 <= i < |front| && Deserves(files, front, sha, i, issue) {
        var i :| 0 <= i < |front| && Deserves(files, front, sha, i, issue);
        assert Deserves(files, entries, sha, i, issue);
      }
    }
  }

  lemma LastReports(before: Tally, files: Files, front: seq<Entry>, last: Entry, sha: Sha, issue: Issue)
    requires before.seen == SafeKeys(front)
    ensures var t := CheckEntry(before, files, last, sha);
            && (issue in t.issues <==> issue in before.issues || Deserves(files, front + [last], sha, |front|, issue))
            && t.seen == SafeKeys(front + [last])
  {
    DeservesStays(files, front, last, sha, issue);
    assert (front + [last])[|front|] == last;
  }

  /** Once the manifest is read, the verifier raises exactly the issues that the entries deserve. */
  lemma VerifyReports(files: Files, sha: Sha, codec: Codec, conv: Conversions, issue: Issue)
    requires ManifestOf(files, sha, codec, conv).Some?
    requires issue.UnsafePath? || issue.DuplicateKey? || issue.Missing? || issue.Tampered?
    ensures var entries := ManifestOf(files, sha, codec, conv).value.files;
            (issue in Verify(files, sha, codec, conv).issues)
              == exists i :: 0 <= i < |entries| && Deserves(files, entries, sha, i, issue)
  {
    var m := ManifestOf(files, sha, codec, conv).value;
    EntriesReport(files, m.files, sha, Opening(m), issue);
  }

  /** In particular an entry whose path climbs out of the bundle is reported, and the bundle is not accepted. */
  lemma ClimbingIsReported(files: Files, sha: Sha, codec: Codec, conv: Conversions, i: nat, j: nat)
    requires ManifestOf(files, sha, codec, conv).Some? && i < |ManifestOf(files, sha, codec, conv).value.files|
    requires var path := ManifestOf(files, sha, codec, conv).value.files[i].bundlePath;
      j < |Parts(path)| && Parts(path)[j] == ".."
    ensures UnsafePath(ManifestOf(files, sha, codec, conv).value.files[i].fileId)
      in Verify(files, sha, codec, conv).issues
    ensures !Verify(files, sha, codec, conv).valid
  {
    var entries := ManifestOf(files, sha, codec, conv).value.files;
    ClimbingIsRefused(entries[i].bundlePath, j);
    assert Deserves(files, entries, sha, i, UnsafePath(entries[i].fileId));
    VerifyReports(files, sha, codec, conv, UnsafePath(entries[i].fileId));
  }

  // ----- which keys are valid -----

  /** A valid key holds nothing but small letters, digits and . _ - in parts that start with a letter or digit. */
  lemma ValidKeyAlphabet(key: string)
    requires ValidKey(key)
    ensures forall c :: c in key ==> c == '/' || KeyChar(c)
    ensures forall i :: 0 <= i < |Parts(key)| ==>
      Parts(key)[i] != "" && Parts(key)[i][0] != '.' && Parts(key)[i][0] != '_' && Parts(key)[i][0] != '-'
  {
    forall c | c in key && c != '/' ensures KeyChar(c) {
      CharsOfParts(key, c);
      var i :| 0 <= i < |Parts(key)| && c in Parts(key)[i];
      assert ValidSegment(Parts(key)[i]);
    }
    forall i | 0 <= i < |Parts(key)|
      ensures Parts(key)[i] != "" && Parts(key)[i][0] != '.' && Parts(key)[i][0] != '_' && Parts(key)[i][0] != '-'
    {
      assert ValidSegment(Parts(key)[i]);
    }
  }

  /** generate_storage_key: products, product, category, file, version and name. */
  function GeneratedKey(product: string, category: string, file: string, version: string, name: string): string {
    "products" + ("/" + (product + ("/" + (category + ("/" + (file + ("/" + (version + ("/" + name)))))))))
  }

  lemma OnePart(s: string)
    requires '/' !in s
    ensures Parts(s) == [s]
    decreases |s|
  {
    if s != "" {
      OnePart(s[1..]);
      assert [s[0]] + s[1..] == s;
    }
  }

  lemma SegmentInFront(segment: string, key: string)
    requires ValidSegment(segment) && ValidKey(key)
    ensures ValidKey(segment + ("/" + key))
  {
    PartsOfPrefix(segment, key);
    assert forall i :: 0 <= i < |Parts(key)| ==> Parts(segment + ("/" + key))[i + 1] == Parts(key)[i];
  }

  lemma OneSegment(segment: string)
    requires ValidSegment(segment)
    ensures ValidKey(segment)
  {
    OnePart(segment);
  }

  /** Every generated key is valid. */
  lemma GeneratedKeyIsValid(product: string, category: string, file: string, version: string, name: string)
    requires ValidSegment(product) && ValidSegment(category) && ValidSegment(file) && ValidSegment(version)
    requires ValidSegment(name)
    ensures ValidKey(GeneratedKey(product, category, file, version, name))
  {
    OneSegment(name);
    SegmentInFront(version, name);
    SegmentInFront(file, version + ("/" + name));
    SegmentInFront(category, file + ("/" + (version + ("/" + name))));
    SegmentInFront(product, category + ("/" + (file + ("/" + (version + ("/" + name))))));
    SegmentInFront("products", product + ("/" + (category + ("/" + (file + ("/" + (version + ("/" + name))))))));
  }

  // ----- which managed files can be staged -----

  /** The file is ready, and the storage holds it as recorded under a valid key. */
  predicate IsGood(f: Managed, storage: map<string, Bytes>, sha: Sha) {
    && f.ready && ValidKey(f.storageKey) && f.storageKey in storage
    && |storage[f.storageKey]| == f.size && sha(storage[f.storageKey]) == f.sha256
  }

  /** Neither key's path is at or below the other's. */
  predicate Apart(f: Managed, g: Managed) {
    !(Parts(f.storageKey) <= Parts(g.storageKey)) && !(Parts(g.storageKey) <= Parts(f.storageKey))
  }

  ghost predicate Stageable(managed: seq<Managed>, storage: map<string, Bytes>, sha: Sha) {
    && (forall i :: 0 <= i < |managed| ==> IsGood(managed[i], storage, sha))
    && (forall i, j :: 0 <= i < j < |managed| ==> Apart(managed[i], managed[j]))
  }

  function PathOf(f: Managed): Path {
    ["files"] + Parts(f.storageKey)
  }

  predicate IsPathOfOne(managed: seq<Managed>, p: Path) {
    exists i :: 0 <= i < |managed| && p == PathOf(managed[i])
  }

  lemma ApartInFiles(f: Managed, g: Managed)
    ensures Apart(f, g) <==> !(PathOf(f) <= PathOf(g)) && !(PathOf(g) <= PathOf(f))
  {
    assert PathOf(f)[1..] == Parts(f.storageKey) && PathOf(g)[1..] == Parts(g.storageKey);
    if Parts(f.storageKey) <= Parts(g.storageKey) { assert PathOf(f) <= PathOf(g); }
    if Parts(g.storageKey) <= Parts(f.storageKey) { assert PathOf(g) <= PathOf(f); }
    if PathOf(f) <= PathOf(g) { assert PathOf(f)[1..] <= PathOf(g)[1..]; }
    if PathOf(g) <= PathOf(f) { assert PathOf(g)[1..] <= PathOf(f)[1..]; }
  }

  /** Staging the managed files succeeds exactly when each of them is good and no two get in each other's way; and
      then exactly their paths are written. */
  lemma {:induction false} WriteAllIff(managed: seq<Managed>, storage: map<string, Bytes>, sha: Sha)
    ensures WriteAll(managed, storage, sha).Done? <==> Stageable(managed, storage, sha)
    ensures WriteAll(managed, storage, sha).Done? ==>
      forall p :: p in WriteAll(managed, storage, sha).files <==> IsPathOfOne(managed, p)
    decreases |managed|
  {
    if managed != [] {
      var front, last := managed[..|managed| - 1], managed[|managed| - 1];
      WriteAllIff(front, storage, sha);
      StageableMore(front, last, storage, sha);
      assert managed == front + [last];
      if Stageable(front, storage, sha) && IsGood(last, storage, sha) {
        ValidKeyResolves(last.storageKey);
        var before := WriteAll(front, storage, sha).files;
        CreatableIff(before, front, last);
        forall p ensures IsPathOfOne(managed, p) <==> IsPathOfOne(front, p) || p == PathOf(last) {
          PathOfOneMore(front, last, p);
        }
      }
    }
  }

  lemma StageableMore(front: seq<Managed>, last: Managed, storage: map<string, Bytes>, sha: Sha)
    ensures Stageable(front + [last], storage, sha)
      <==> Stageable(front, storage, sha) && IsGood(last, storage, sha)
           && forall i :: 0 <= i < |front| ==> Apart(front[i], last)
  {
    var more := front + [last];
    assert forall i :: 0 <= i < |front| ==> more[i] == front[i];
    assert more[|front|] == last;
    if Stageable(more, storage, sha) {
      assert IsGood(more[|front|], storage, sha);
      forall i | 0 <= i < |front| ensures IsGood(front[i], storage, sha) && Apart(front[i], last) {
        assert IsGood(more[i], storage, sha) && Apart(more[i], more[|front|]);
      }
      forall i, j | 0 <= i < j < |front| ensures Apart(front[i], front[j]) { assert Apart(more[i], more[j]); }
    }
  }

  lemma PathOfOneMore(front: seq<Managed>, last: Managed, p: Path)
    ensures IsPathOfOne(front + [last], p) <==> IsPathOfOne(front, p) || p == PathOf(last)
  {
    var more := front + [last];
    assert forall i :: 0 <= i < |front| ==> more[i] == front[i];
    assert more[|front|] == last;
    if IsPathOfOne(front, p) {
      var i :| 0 <= i < |front| && p == PathOf(front[i]);
      assert p == PathOf(more[i]);
    }
  }

  lemma CreatableIff(before: Files, front: seq<Managed>, last: Managed)
    requires forall p :: p in before <==> IsPathOfOne(front, p)
    ensures Creatable(before, PathOf(last)) <==> forall i :: 0 <= i < |front| ==> Apart(front[i], last)
  {
    forall i | 0 <= i < |front| ensures PathOf(front[i]) in before { assert IsPathOfOne(front, PathOf(front[i])); }
    forall i | 0 <= i < |front|
      ensures Apart(front[i], last) <==> !(PathOf(front[i]) <= PathOf(last)) && !(PathOf(last) <= PathOf(front[i]))
    {
      ApartInFiles(front[i], last);
    }
    if forall i :: 0 <= i < |front| ==> Apart(front[i], last) {
      forall q | q in before ensures !(q <= PathOf(last)) && !(PathOf(last) <= q) {
        assert IsPathOfOne(front, q);
        var i :| 0 <= i < |front| && q == PathOf(front[i]);
        assert Apart(front[i], last);
      }
    }
  }

  // ----- what the manifest tells -----

  /** The manifest of a staged bundle tells the request: its header, and each managed file in its place. */
  lemma ManifestTells(r: Request, sha: Sha, codec: Codec, conv: Conversions)
    requires DigestsAreHex(sha) && Lawful(codec) && LawfulConversions(conv) && Staged(r, sha, codec).Done?
    ensures var found := ManifestOf(Staged(r, sha, codec).files, sha, codec, conv);
            && found.Some?
            && found.value.backupId == r.header.backupId && found.value.createdAt == r.header.createdAt
            && found.value.applicationVersion == r.header.applicationVersion
            && found.value.schemaRevision == r.header.schemaRevision
            && found.value.metadataReference.Some? == r.metadata.Export?
            && |found.value.files| == |r.managed|
            && forall i :: 0 <= i < |r.managed| ==>
                 && found.value.files[i].fileId == r.managed[i].fileId
                 && found.value.files[i].storageKey == r.managed[i].storageKey
                 && found.value.files[i].size == r.managed[i].size && found.value.files[i].sha256 == r.managed[i].sha256
  {
    StagedIsAccepted(r, sha, codec, conv);
  }

  /** A manifest is read only if it has exactly the required fields, and all its entries are objects with at least
      theirs. */
  lemma ParsedHasFields(j: Json, conv: Conversions)
    requires ParseManifest(j, conv).Some?
    ensures j.JObj? && j.fields.Keys == REQUIRED && j.fields[FILES].JList?
    ensures var items := j.fields[FILES].items;
            && |ParseManifest(j, conv).value.files| == |items|
            && forall i :: 0 <= i < |items| ==> items[i].JObj? && ENTRY_FIELDS <= items[i].fields.Keys
  {
    EntriesHaveFields(j.fields[FILES].items, conv);
  }

  lemma {:induction false} EntriesHaveFields(items: seq<Json>, conv: Conversions)
    requires ParseEntries(items, conv).Some?
    ensures |ParseEntries(items, conv).value| == |items|
    ensures forall i :: 0 <= i < |items| ==> items[i].JObj? && ENTRY_FIELDS <= items[i].fields.Keys
    decreases |items|
  {
    if items != [] {
      EntriesHaveFields(items[1..], conv);
      assert forall i :: 0 < i < |items| ==> items[i] == items[1..][i - 1];
    }
  }
}
