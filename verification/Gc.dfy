/** Garbage-collection planning: which chunk files of a depot no current manifest accounts for. */
module Gc {
  import opened Digits
  import opened Options
  import opened StringOrder

  // ---------------------------------------------------------------- what is on disk

  /** A name in a depot's chunk directory. */
  datatype Entry =
    | File(storedAt: int, size: nat, locked: bool)
    | Link(storedAt: int)
    | NotAFile(storedAt: int)
    | Unreadable

  /** A name in the directory of one stored manifest id. */
  datatype Copy = Copy(bytes: string, mtime: nat, locked: bool) | NoCopy

  datatype DepotDir = DepotDir(chunks: map<string, Entry>, manifests: map<string, map<string, Copy>>)

  /** A decoded manifest: the depot and manifest it says it is, and the chunks it lists. */
  datatype Parsed = Parsed(depot: nat, id: string, chunks: set<string>)

  /** What manifests can be read: archived ones by depot and id, stored copies by decoding. */
  datatype Evidence = Evidence(archive: map<(nat, string), set<string>>, parse: string -> Option<Parsed>)

  const CHUNK_ID_LENGTH := 40
  const MAX_MANIFEST_ID_DIGITS := 20
  const MAX_EXTRA_MANIFESTS := 32

  predicate IsChunkName(name: string) {
    |name| == CHUNK_ID_LENGTH && forall c | c in name :: '0' <= c <= '9' || 'a' <= c <= 'f'
  }

  predicate ValidManifestId(id: string) {
    AllDigits(id) && |id| <= MAX_MANIFEST_ID_DIGITS && id[0] != '0'
  }

  /** `scan_depot_chunks`: regular files with a chunk's name; everything else is left alone. */
  function ScanChunks(chunks: map<string, Entry>): map<string, nat> {
    map n | n in chunks && IsChunkName(n) && chunks[n].File? :: chunks[n].size
  }

  // ---------------------------------------------------------------- stored manifest copies

  /** A stored copy that decodes to the manifest it is filed under. */
  predicate Usable(parse: string -> Option<Parsed>, depot: nat, id: string, copy: Copy) {
    copy.Copy? && parse(copy.bytes).Some? && parse(copy.bytes).value.depot == depot && parse(copy.bytes).value.id == id
  }

  predicate NewerCopy(copies: map<string, Copy>, n: string, m: string) {
    n in copies && m in copies && copies[n].Copy? && copies[m].Copy? && Later(copies[n].mtime, n, copies[m].mtime, m)
  }

  /** The newest copy that is usable: the one reading the copies newest first stops at. */
  ghost predicate IsReadFrom(parse: string -> Option<Parsed>, depot: nat, id: string, copies: map<string, Copy>, n: string) {
    && n in copies && Usable(parse, depot, id, copies[n])
    && forall m :: m in copies && m != n && Usable(parse, depot, id, copies[m]) ==> NewerCopy(copies, n, m)
  }

  /** The newest copy, usable or not: the one kept when duplicates go. */
  ghost predicate IsHead(copies: map<string, Copy>, n: string) {
    && n in copies && copies[n].Copy?
    && forall m :: m in copies && m != n && copies[m].Copy? ==> NewerCopy(copies, n, m)
  }

  lemma OneReadFrom(parse: string -> Option<Parsed>, depot: nat, id: string, copies: map<string, Copy>, n: string, m: string)
    requires IsReadFrom(parse, depot, id, copies, n) && IsReadFrom(parse, depot, id, copies, m)
    ensures n == m
  {
    if n != m { LaterIsTotal(copies[n].mtime, n, copies[m].mtime, m); }
  }

  ghost function StoredChunks(parse: string -> Option<Parsed>, depot: nat, id: string, copies: map<string, Copy>): Option<set<string>> {
    if exists n :: IsReadFrom(parse, depot, id, copies, n) then
      var n :| IsReadFrom(parse, depot, id, copies, n);
      Some(parse(copies[n].bytes).value.chunks)
    else None
  }

  /** Listed in the order the scan sorts them: newest first. */
  ghost predicate NewestFirst(copies: map<string, Copy>, names: seq<string>) {
    && (forall i :: 0 <= i < |names| ==> names[i] in copies && copies[names[i]].Copy?)
    && (forall i, k :: 0 <= i < k < |names| ==> NewerCopy(copies, names[i], names[k]))
    && (forall n :: n in copies && copies[n].Copy? ==> n in names)
  }

  lemma HeadOfScan(copies: map<string, Copy>, names: seq<string>)
    requires NewestFirst(copies, names) && names != []
    ensures IsHead(copies, names[0])
  {
    forall m | m in copies && m != names[0] && copies[m].Copy? ensures NewerCopy(copies, names[0], m) {
      var k :| 0 <= k < |names| && names[k] == m;
    }
  }

  /** The scan of one stored manifest id: regular files, newest first. */
  method ScanCopies(copies: map<string, Copy>) returns (names: seq<string>)
    ensures NewestFirst(copies, names)
  {
    names := [];
    var todo := set n | n in copies && copies[n].Copy?;
    ghost var all := todo;
    while todo != {}
      invariant todo <= all
      invariant forall i :: 0 <= i < |names| ==> names[i] in all - todo
      invariant forall n :: n in all - todo ==> n in names
      invariant forall i, k :: 0 <= i < k < |names| ==> NewerCopy(copies, names[i], names[k])
      decreases |todo|
    {
      var n :| n in todo;
      var at := 0;
      while at < |names| && Later(copies[names[at]].mtime, names[at], copies[n].mtime, n)
        invariant at <= |names|
        invariant forall i :: 0 <= i < at ==> NewerCopy(copies, names[i], n)
      {
        at := at + 1;
      }
      InsertKeepsOrder(copies, names, n, at);
      names := names[..at] + [n] + names[at..];
      todo := todo - {n};
    }
  }

  lemma InsertKeepsOrder(copies: map<string, Copy>, names: seq<string>, n: string, at: nat)
    requires at <= |names| && n in copies && copies[n].Copy? && n !in names
    requires forall i :: 0 <= i < |names| ==> names[i] in copies && copies[names[i]].Copy?
    requires forall i, k :: 0 <= i < k < |names| ==> NewerCopy(copies, names[i], names[k])
    requires forall i :: 0 <= i < at ==> NewerCopy(copies, names[i], n)
    requires at < |names| ==> !NewerCopy(copies, names[at], n)
    ensures var longer := names[..at] + [n] + names[at..];
      && (forall i, k :: 0 <= i < k < |longer| ==> NewerCopy(copies, longer[i], longer[k]))
      && (forall m :: m in longer <==> m in names || m == n)
  {
    var longer := names[..at] + [n] + names[at..];
    forall k | at <= k < |names| ensures NewerCopy(copies, n, names[k]) {
      LaterIsTotal(copies[names[at]].mtime, names[at], copies[n].mtime, n);
      if at < k { LaterIsTransitive(copies[n].mtime, n, copies[names[at]].mtime, names[at], copies[names[k]].mtime, names[k]); }
    }
    forall i, k | 0 <= i < k < |longer| ensures NewerCopy(copies, longer[i], longer[k]) {
      if i < at < k { assert longer[k] == names[k - 1]; }
    }
    forall m ensures m in longer <==> m in names || m == n {
      assert names == names[..at] + names[at..];
    }
  }

  /** Reading the copies in turn until one is what it should be. */
  method TryStoredCopies(parse: string -> Option<Parsed>, depot: nat, id: string, copies: map<string, Copy>)
    returns (chunks: Option<set<string>>)
    ensures chunks == StoredChunks(parse, depot, id, copies)
  {
    var names := ScanCopies(copies);
    for i := 0 to |names|
      invariant forall k :: 0 <= k < i ==> !Usable(parse, depot, id, copies[names[k]])
    {
      if Usable(parse, depot, id, copies[names[i]]) {
        ReadHere(parse, depot, id, copies, names, i);
        return Some(parse(copies[names[i]].bytes).value.chunks);
      }
    }
    forall n | n in copies && copies[n].Copy? ensures !Usable(parse, depot, id, copies[n]) {
      assert n in names;
    }
    chunks := None;
  }

  lemma ReadHere(parse: string -> Option<Parsed>, depot: nat, id: string, copies: map<string, Copy>, names: seq<string>, i: nat)
    requires NewestFirst(copies, names) && i < |names| && Usable(parse, depot, id, copies[names[i]])
    requires forall k :: 0 <= k < i ==> !Usable(parse, depot, id, copies[names[k]])
    ensures StoredChunks(parse, depot, id, copies) == Some(parse(copies[names[i]].bytes).value.chunks)
  {
    forall m | m in copies && m != names[i] && Usable(parse, depot, id, copies[m]) ensures NewerCopy(copies, names[i], m) {
      var k :| 0 <= k < |names| && names[k] == m;
    }
    assert IsReadFrom(parse, depot, id, copies, names[i]);
    var n :| IsReadFrom(parse, depot, id, copies, n) && StoredChunks(parse, depot, id, copies) == Some(parse(copies[n].bytes).value.chunks);
    OneReadFrom(parse, depot, id, copies, n, names[i]);
  }

  // ---------------------------------------------------------------- which manifest counts for an app

  /** An app that maps the depot; an unreadable owner is listed as id 0. */
  datatype MappedApp = MappedApp(appid: nat, hasContent: bool, recorded: Option<string>)

  predicate Counting(app: MappedApp) {
    app.recorded.Some? || app.hasContent
  }

  predicate HasCopies(manifests: map<string, map<string, Copy>>, id: string) {
    id in manifests && ValidManifestId(id) && exists n :: n in manifests[id] && manifests[id][n].Copy?
  }

  /** Some copy of `id` is later than every copy of every other stored id. */
  ghost predicate IsNewestId(manifests: map<string, map<string, Copy>>, id: string) {
    && HasCopies(manifests, id)
    && exists n :: n in manifests[id] && manifests[id][n].Copy? && OutlastsOthers(manifests, id, n)
  }

  ghost predicate OutlastsOthers(manifests: map<string, map<string, Copy>>, id: string, n: string)
    requires id in manifests && n in manifests[id] && manifests[id][n].Copy?
  {
    forall other, m :: other in manifests && other != id && ValidManifestId(other)
                       && m in manifests[other] && manifests[other][m].Copy?
      ==> Later(manifests[id][n].mtime, id, manifests[other][m].mtime, other)
  }

  lemma OneNewestId(manifests: map<string, map<string, Copy>>, a: string, b: string)
    requires IsNewestId(manifests, a) && IsNewestId(manifests, b)
    ensures a == b
  {
    if a != b {
      var n :| n in manifests[a] && manifests[a][n].Copy? && OutlastsOthers(manifests, a, n);
      var m :| m in manifests[b] && manifests[b][m].Copy? && OutlastsOthers(manifests, b, m);
      LaterIsTotal(manifests[a][n].mtime, a, manifests[b][m].mtime, b);
    }
  }

  /** One manifest id: the archive first, then the stored copies of the same id. */
  ghost function ChunksOf(e: Evidence, depot: nat, manifests: map<string, map<string, Copy>>, id: string): Option<set<string>> {
    if (depot, id) in e.archive then Some(e.archive[(depot, id)])
    else if id in manifests then StoredChunks(e.parse, depot, id, manifests[id])
    else None
  }

  /** The chunks of an app's current manifest: its recorded manifest or nothing; without a
      record, the newest stored manifest or nothing. Never an older one. */
  ghost function CurrentChunks(e: Evidence, depot: nat, manifests: map<string, map<string, Copy>>, app: MappedApp): Option<set<string>> {
    if app.recorded.Some? then
      if ValidManifestId(app.recorded.value) then ChunksOf(e, depot, manifests, app.recorded.value) else None
    else if exists id :: IsNewestId(manifests, id) then
      var id :| IsNewestId(manifests, id);
      StoredChunks(e.parse, depot, id, manifests[id])
    else None
  }

  method ReadManifestById(e: Evidence, depot: nat, manifests: map<string, map<string, Copy>>, id: string)
    returns (chunks: Option<set<string>>)
    ensures chunks == ChunksOf(e, depot, manifests, id)
  {
    if (depot, id) in e.archive {
      return Some(e.archive[(depot, id)]);
    }
    if id !in manifests {
      return None;
    }
    chunks := TryStoredCopies(e.parse, depot, id, manifests[id]);
  }

  /** `_newest_stored_manifest_id`: the largest pair of newest copy time and id. */
  method NewestStoredId(manifests: map<string, map<string, Copy>>) returns (best: Option<string>)
    ensures best.Some? ==> IsNewestId(manifests, best.value)
    ensures best.None? ==> forall id :: !HasCopies(manifests, id)
  {
    best := None;
    var bestName: string := "";
    var todo := manifests.Keys;
    while todo != {}
      invariant todo <= manifests.Keys
      invariant best.None? ==> forall id :: id in manifests.Keys - todo ==> !HasCopies(manifests, id)
      invariant best.Some? ==>
        && best.value in manifests.Keys - todo && HasCopies(manifests, best.value)
        && IsHead(manifests[best.value], bestName)
        && OutlastsAmong(manifests, best.value, bestName, manifests.Keys - todo)
      decreases |todo|
    {
      var id :| id in todo;
      todo := todo - {id};
      if ValidManifestId(id) {
        var names := ScanCopies(manifests[id]);
        if names != [] {
          assert names[0] in manifests[id];
          HeadOfScan(manifests[id], names);
          var isLater := best.None?
            || Later(manifests[id][names[0]].mtime, id, manifests[best.value][bestName].mtime, best.value);
          ChallengeKeepsOrder(manifests, id, names[0], best, bestName, manifests.Keys - todo - {id});
          assert manifests.Keys - todo - {id} + {id} == manifests.Keys - todo;
          if isLater {
            best, bestName := Some(id), names[0];
          }
        }
      }
    }
  }

  ghost predicate OutlastsAmong(manifests: map<string, map<string, Copy>>, id: string, n: string, ids: set<string>)
    requires id in manifests && n in manifests[id] && manifests[id][n].Copy?
  {
    forall other, m :: other in ids && other in manifests && other != id && ValidManifestId(other)
                       && m in manifests[other] && manifests[other][m].Copy?
      ==> Later(manifests[id][n].mtime, id, manifests[other][m].mtime, other)
  }

  lemma ChallengeKeepsOrder(manifests: map<string, map<string, Copy>>, id: string, head: string,
                            best: Option<string>, bestName: string, seen: set<string>)
    requires id in manifests && IsHead(manifests[id], head) && id !in seen
    requires best.None? ==> forall other :: other in seen ==> !HasCopies(manifests, other)
    requires best.Some? ==>
      && best.value in seen && best.value in manifests
      && IsHead(manifests[best.value], bestName)
      && OutlastsAmong(manifests, best.value, bestName, seen)
    ensures best.None? || Later(manifests[id][head].mtime, id, manifests[best.value][bestName].mtime, best.value)
      ==> OutlastsAmong(manifests, id, head, seen + {id})
    ensures best.Some? && !Later(manifests[id][head].mtime, id, manifests[best.value][bestName].mtime, best.value)
      ==> OutlastsAmong(manifests, best.value, bestName, seen + {id})
  {
    if best.None? || Later(manifests[id][head].mtime, id, manifests[best.value][bestName].mtime, best.value) {
      forall other, m | other in seen && other in manifests && ValidManifestId(other)
                        && m in manifests[other] && manifests[other][m].Copy?
        ensures Later(manifests[id][head].mtime, id, manifests[other][m].mtime, other)
      {
        assert HasCopies(manifests, other);
        if other != best.value {
          LaterIsTransitive(manifests[id][head].mtime, id, manifests[best.value][bestName].mtime, best.value,
                            manifests[other][m].mtime, other);
        }
      }
    } else {
      LaterIsTotal(manifests[id][head].mtime, id, manifests[best.value][bestName].mtime, best.value);
    }
  }
}
