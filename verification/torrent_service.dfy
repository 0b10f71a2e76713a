/** The torrent service as the program runs it: one object over four maps, with a
  * store that survives a restart.
  */
module TorrentService {
  import opened Wrappers
  import opened TorrentLibrary

  /** One torrent as the registry remembers it. */
  datatype Record = Record(infoHash: TorrentID, source: Source)

  datatype Disk = Disk(owners: map<TorrentID, UserID>, registry: map<TorrentID, Record>)

  const NO_SOURCE := Source("", [])

  function Remembered(lib: Library, id: TorrentID): Record {
    Record(id, if id in lib.sources then lib.sources[id] else NO_SOURCE)
  }

  /** What saving writes: every owner, and every live torrent with the source it
    * was added from, if that is known. */
  function Snapshot(lib: Library): Disk {
    Disk(lib.owners, map id | id in lib.torrents :: Remembered(lib, id))
  }

  /** A backend asked to add a source again; `None` when that fails. */
  type Backend = Source -> Option<Handle>

  predicate HasSource(s: Source) {
    s.magnetURI != "" || |s.torrent| > 0
  }

  function Readded(record: Record, backend: Backend): Option<Handle> {
    if HasSource(record.source) then backend(record.source) else None
  }

  /** The record comes back as the torrent it was saved for. */
  predicate ComesBack(record: Record, backend: Backend) {
    var h := Readded(record, backend);
    h.Some? && h.value.id == record.infoHash
  }

  predicate BackAs(record: Record, backend: Backend, id: TorrentID, handle: Handle) {
    record.infoHash == id && Readded(record, backend) == Some(handle) && handle.id == id
  }

  ghost function Restorable(records: set<Record>, backend: Backend): set<TorrentID> {
    set r | r in records && ComesBack(r, backend) :: r.infoHash
  }

  /** `after` is `before` with the ownership loaded and every record that comes
    * back under its own identifier live again. */
  ghost predicate RestoredFrom(before: Library, disk: Disk, backend: Backend, after: Library) {
    && after.owners == before.owners + disk.owners
    && after.selected == before.selected
    && after.sources == before.sources
    && RestoredHandles(before, disk.registry.Values, backend, after.torrents)
  }

  ghost predicate RestoredHandles(before: Library, records: set<Record>, backend: Backend,
                                  torrents: map<TorrentID, Handle>) {
    && torrents.Keys == before.torrents.Keys + Restorable(records, backend)
    && (forall id | id in torrents ::
          if id in Restorable(records, backend)
          then exists r | r in records :: BackAs(r, backend, id, torrents[id])
          else torrents[id] == before.torrents[id])
  }

  /** The torrents a restart drops again because they came back as another one. */
  ghost function Strays(records: set<Record>, backend: Backend): set<TorrentID> {
    set r | r in records && Readded(r, backend).Some? && !ComesBack(r, backend) :: Readded(r, backend).value.id
  }

  lemma RestorableGrows(records: set<Record>, r: Record, backend: Backend)
    ensures Restorable(records + {r}, backend)
        == Restorable(records, backend) + if ComesBack(r, backend) then {r.infoHash} else {}
    ensures Strays(records + {r}, backend)
         == Strays(records, backend)
            + if Readded(r, backend).Some? && !ComesBack(r, backend) then {Readded(r, backend).value.id} else {}
  {
    var more := Restorable(records + {r}, backend);
    forall id | id in Restorable(records, backend) ensures id in more {
      var q :| q in records && ComesBack(q, backend) && q.infoHash == id;
      assert q in records + {r};
    }
    assert r in records + {r};
    var strays := Strays(records + {r}, backend);
    forall id | id in Strays(records, backend) ensures id in strays {
      var q :| q in records && Readded(q, backend).Some? && !ComesBack(q, backend)
          && Readded(q, backend).value.id == id;
      assert q in records + {r};
    }
  }

  lemma HandlesGrow(before: Library, records: set<Record>, r: Record, backend: Backend,
                    torrents: map<TorrentID, Handle>)
    requires RestoredHandles(before, records, backend, torrents)
    ensures RestoredHandles(before, records + {r}, backend,
              if ComesBack(r, backend) then torrents[r.infoHash := Readded(r, backend).value] else torrents)
  {
    hide Restorable, Readded, Strays;
    RestorableGrows(records, r, backend);
    var more := records + {r};
    var torrents' := if ComesBack(r, backend) then torrents[r.infoHash := Readded(r, backend).value] else torrents;
    forall id | id in torrents' && id in Restorable(more, backend)
      ensures exists q | q in more :: BackAs(q, backend, id, torrents'[id])
    {
      if ComesBack(r, backend) && id == r.infoHash {
        assert BackAs(r, backend, id, torrents'[id]);
      } else {
        var q :| q in records && BackAs(q, backend, id, torrents[id]);
        assert q in more;
      }
    }
  }

  class Service {
    var torrents: map<TorrentID, Handle>
    var selectedFiles: map<TorrentID, map<UserID, int>>
    var torrentOwners: map<TorrentID, UserID>
    var torrentSources: map<TorrentID, Source>
    /** What the persistence store holds, once one is wired. */
    var store: Option<Disk>

    ghost function State(): Library
      reads this
    {
      Library(torrents, selectedFiles, torrentOwners, torrentSources)
    }

    /** The store holds what a restart would need. */
    ghost predicate Mirrored()
      reads this
    {
      store.Some? ==> store.value == Snapshot(State())
    }

    constructor ()
      ensures State() == EMPTY && store == None
    {
      torrents, selectedFiles, torrentOwners, torrentSources := map[], map[], map[], map[];
      store := None;
    }

    method CanReadTorrent(visibility: Option<Visibility>, user: UserID, id: TorrentID) returns (ok: bool)
      ensures ok == CanRead(State(), visibility, user, id)
    {
      if id !in torrentOwners { return true; }
      if torrentOwners[id] == user { return true; }
      if visibility.None? { return false; }
      return id in visibility.value(user);
    }

    method CopyOwners() returns (owners: map<TorrentID, UserID>)
      ensures owners == torrentOwners
    {
      owners := map[];
      var todo := torrentOwners.Keys;
      while todo != {}
        invariant todo <= torrentOwners.Keys
        invariant owners.Keys == torrentOwners.Keys - todo
        invariant forall id | id in owners :: owners[id] == torrentOwners[id]
        decreases |todo|
      {
        var id :| id in todo;
        owners, todo := owners[id := torrentOwners[id]], todo - {id};
      }
    }

    method CopyRegistry() returns (registry: map<TorrentID, Record>)
      ensures registry == Snapshot(State()).registry
    {
      registry := map[];
      var todo := torrents.Keys;
      while todo != {}
        invariant todo <= torrents.Keys
        invariant registry.Keys == torrents.Keys - todo
        invariant forall id | id in registry :: registry[id] == Remembered(State(), id)
        decreases |todo|
      {
        var id :| id in todo;
        var source := if id in torrentSources then torrentSources[id] else NO_SOURCE;
        registry, todo := registry[id := Record(id, source)], todo - {id};
      }
    }

    /** Copies the owners and the registry, one entry at a time, and writes them. */
    method SaveRegistry()
      modifies this`store
      ensures store.Some? == old(store).Some? && Mirrored()
    {
      if store.None? { return; }
      var owners := CopyOwners();
      var registry := CopyRegistry();
      store := Some(Disk(owners, registry));
    }

    /** `found` is the backend's answer. */
    method AddMagnet(user: UserID, uri: string, wellFormed: string -> bool, found: Option<Handle>)
      returns (outcome: Outcome)
      modifies this
      ensures outcome == (
        if uri == "" || !wellFormed(uri) then Refused(InvalidInput)
        else if |old(torrents)| >= MAX_TORRENTS then Refused(Unavailable)
        else if found.None? then Refused(BackendFailed) else Done)
      ensures State() == if outcome == Done then Step(old(State()), Insert(user, Source(uri, []), found.value))
                         else old(State())
      ensures if outcome == Done then store.Some? == old(store).Some? && Mirrored() else store == old(store)
    {
      if uri == "" || !wellFormed(uri) { return Refused(InvalidInput); }
      if |torrents| >= MAX_TORRENTS { return Refused(Unavailable); }
      if found.None? { return Refused(BackendFailed); }
      var id := found.value.id;
      torrents := torrents[id := found.value];
      torrentOwners := torrentOwners[id := user];
      torrentSources := torrentSources[id := Source(uri, [])];
      SaveRegistry();
      return Done;
    }

    /** Reads at most one byte more than the limit, which tells a file at the limit
      * from one beyond it. */
    method AddTorrent(user: UserID, data: seq<bv8>, parse: seq<bv8> -> Option<Handle>) returns (outcome: Outcome)
      modifies this
      ensures outcome == (
        if |old(torrents)| >= MAX_TORRENTS then Refused(Unavailable)
        else if |data| > MAX_TORRENT_FILE_SIZE then Refused(InvalidInput)
        else if parse(data).None? then Refused(BackendFailed) else Done)
      ensures State() == if outcome == Done then Step(old(State()), Insert(user, Source("", data), parse(data).value))
                         else old(State())
      ensures if outcome == Done then store.Some? == old(store).Some? && Mirrored() else store == old(store)
    {
      if |torrents| >= MAX_TORRENTS { return Refused(Unavailable); }
      var raw := if |data| <= MAX_TORRENT_FILE_SIZE + 1 then data else data[..MAX_TORRENT_FILE_SIZE + 1];
      if |raw| > MAX_TORRENT_FILE_SIZE { return Refused(InvalidInput); }
      var handle := parse(raw);
      if handle.None? { return Refused(BackendFailed); }
      var id := handle.value.id;
      torrents := torrents[id := handle.value];
      torrentOwners := torrentOwners[id := user];
      torrentSources := torrentSources[id := Source("", raw)];
      SaveRegistry();
      return Done;
    }

    /** The part before the wait for active streams, which StreamDrain is about. */
    method RemoveTorrent(id: TorrentID, user: UserID) returns (outcome: Outcome)
      modifies this
      ensures outcome == OutcomeOf(old(State()), Remove(id, user))
      ensures State() == Step(old(State()), Remove(id, user))
      ensures if outcome == Done then store.Some? == old(store).Some? && Mirrored() else store == old(store)
    {
      if id !in torrents { return Refused(NotFound); }
      if id in torrentOwners && torrentOwners[id] != user { return Refused(Forbidden); }
      torrents := torrents - {id};
      selectedFiles := selectedFiles - {id};
      torrentOwners := torrentOwners - {id};
      torrentSources := torrentSources - {id};
      SaveRegistry();
      return Done;
    }

    method SelectFile(id: TorrentID, user: UserID, index: int, visibility: Option<Visibility>, accepts: bool)
      returns (outcome: Outcome)
      modifies this`selectedFiles
      ensures var act := Select(id, user, index, CanRead(old(State()), visibility, user, id), accepts);
              outcome == OutcomeOf(old(State()), act) && State() == Step(old(State()), act)
      ensures old(Mirrored()) ==> Mirrored()
    {
      hide CanRead;
      var readable := CanReadTorrent(visibility, user, id);
      if !readable { return Refused(Forbidden); }
      if id !in torrents { return Refused(NotFound); }
      if !IndexAccepted(index, torrents[id].fileCount - 1) { return Refused(InvalidInput); }
      if !accepts { return Refused(BackendFailed); }
      if id !in selectedFiles {
        selectedFiles := selectedFiles[id := map[]];
      }
      selectedFiles := selectedFiles[id := selectedFiles[id][user := index]];
      return Done;
    }

    method ServeFile(id: TorrentID, user: UserID, visibility: Option<Visibility>) returns (outcome: Outcome)
      ensures outcome == OutcomeOf(State(), Serve(id, user, CanRead(State(), visibility, user, id)))
    {
      var readable := CanReadTorrent(visibility, user, id);
      if !readable { return Refused(NotFound); }
      if id !in torrents { return Refused(NotFound); }
      if id !in selectedFiles { return Refused(NotSelected); }
      if user !in selectedFiles[id] { return Refused(NotSelected); }
      var index := selectedFiles[id][user];
      if index >= torrents[id].fileCount { return Refused(InvalidInput); }
      return Streaming(torrents[id], index);
    }

    method ServeSubtitles(id: TorrentID, user: UserID, index: int, visibility: Option<Visibility>)
      returns (outcome: Outcome)
      ensures outcome == OutcomeOf(State(), Subtitles(id, user, index, CanRead(State(), visibility, user, id)))
    {
      var readable := CanReadTorrent(visibility, user, id);
      if !readable { return Refused(NotFound); }
      if id !in torrents { return Refused(NotFound); }
      if index < 0 || index >= torrents[id].fileCount { return Refused(InvalidInput); }
      return Streaming(torrents[id], index);
    }

    method ReaddTorrent(record: Record, backend: Backend) returns (handle: Option<Handle>)
      ensures handle == Readded(record, backend)
    {
      if record.source.magnetURI != "" { return backend(record.source); }
      if |record.source.torrent| > 0 { return backend(record.source); }
      return None;
    }

    /** Wires the store and restores from it, in whatever order the registry is
      * walked. `dropped` are the torrents handed back to the backend. */
    method SetPersistence(disk: Disk, backend: Backend) returns (dropped: set<TorrentID>)
      modifies this
      ensures RestoredFrom(old(State()), disk, backend, State())
      ensures dropped == Strays(disk.registry.Values, backend)
      ensures store == Some(disk)
    {
      store := Some(disk);
      LoadOwners(disk.owners);
      dropped := RestoreAll(State(), disk.registry.Values, backend);
    }

    method RestoreAll(ghost before: Library, records: set<Record>, backend: Backend) returns (dropped: set<TorrentID>)
      requires before.torrents == torrents
      modifies this`torrents
      ensures RestoredHandles(before, records, backend, torrents)
      ensures dropped == Strays(records, backend)
    {
      hide RestoredHandles, Restorable, Strays, Readded, ComesBack;
      dropped := {};
      var todo, seen := records, {};
      NothingRestoredYet(before, backend);
      while todo != {}
        invariant todo <= records && seen == records - todo
        invariant dropped == Strays(seen, backend)
        invariant RestoredHandles(before, seen, backend, torrents)
        decreases |todo|
      {
        var record :| record in todo;
        HandlesGrow(before, seen, record, backend, torrents);
        RestorableGrows(seen, record, backend);
        todo, seen := todo - {record}, seen + {record};
        var stray := RestoreOne(record, backend);
        dropped := dropped + stray;
      }
      assert seen == records;
    }

    /** One registry entry: back under its own identifier it is live again; back
      * under another one it is dropped. */
    method RestoreOne(record: Record, backend: Backend) returns (dropped: set<TorrentID>)
      modifies this`torrents
      ensures torrents == if ComesBack(record, backend)
                          then old(torrents)[record.infoHash := Readded(record, backend).value] else old(torrents)
      ensures dropped == if Readded(record, backend).Some? && !ComesBack(record, backend)
                         then {Readded(record, backend).value.id} else {}
    {
      var handle := ReaddTorrent(record, backend);
      if handle.None? { return {}; }
      var id := handle.value.id;
      if id != record.infoHash { return {id}; }
      torrents := torrents[id := handle.value];
      return {};
    }

    method LoadOwners(owners: map<TorrentID, UserID>)
      modifies this`torrentOwners
      ensures torrentOwners == old(torrentOwners) + owners
    {
      var todo := owners.Keys;
      while todo != {}
        invariant todo <= owners.Keys
        invariant torrentOwners.Keys == old(torrentOwners).Keys + (owners.Keys - todo)
        invariant forall id | id in torrentOwners ::
                    torrentOwners[id] == if id in owners && id !in todo then owners[id] else old(torrentOwners)[id]
        decreases |todo|
      {
        var id :| id in todo;
        torrentOwners, todo := torrentOwners[id := owners[id]], todo - {id};
      }
      assert torrentOwners == old(torrentOwners) + owners;
    }
  }

  lemma NothingRestoredYet(before: Library, backend: Backend)
    ensures RestoredHandles(before, {}, backend, before.torrents) && Strays({}, backend) == {}
  {
  }

  // ---------- a restart ----------

  /** The identifier is a function of the source, as an infohash is, and every add
    * was of a source that carries one. */
  ghost predicate FaithfulAdds(acts: seq<Act>, idOf: Source -> TorrentID) {
    forall act | act in acts && act.Insert? :: HasSource(act.source) && act.handle.id == idOf(act.source)
  }

  ghost predicate FaithfulBackend(backend: Backend, idOf: Source -> TorrentID) {
    forall s: Source | backend(s).Some? :: backend(s).value.id == idOf(s)
  }

  /** Every known source is that of its torrent. */
  ghost predicate SourcesFit(lib: Library, idOf: Source -> TorrentID) {
    forall id | id in lib.sources :: HasSource(lib.sources[id]) && idOf(lib.sources[id]) == id
  }

  lemma {:induction false} SourcesKeepFitting(start: Library, acts: seq<Act>, idOf: Source -> TorrentID)
    requires SourcesFit(start, idOf) && FaithfulAdds(acts, idOf)
    ensures SourcesFit(Run(start, acts), idOf)
  {
    if acts != [] {
      var init, last := acts[..|acts| - 1], acts[|acts| - 1];
      assert last in acts;
      SourcesKeepFitting(start, init, idOf);
    }
  }

  /** What a restart brings back, for any library whose sources fit: exactly the
    * live torrents whose source is known and which the backend finds again. None
    * comes back as a stranger. */
  lemma RestoredSet(lib: Library, backend: Backend, idOf: Source -> TorrentID)
    requires SourcesFit(lib, idOf) && FaithfulBackend(backend, idOf)
    ensures Restorable(Snapshot(lib).registry.Values, backend)
         == set id | id in lib.torrents && id in lib.sources && backend(lib.sources[id]).Some?
    ensures Strays(Snapshot(lib).registry.Values, backend) == {}
  {
    var registry := Snapshot(lib).registry;
    forall r | r in registry.Values
      ensures r.infoHash in lib.torrents && r == Remembered(lib, r.infoHash)
    {
      var id :| id in registry && registry[id] == r;
    }
    forall id | id in lib.torrents && id in lib.sources && backend(lib.sources[id]).Some?
      ensures id in Restorable(registry.Values, backend)
    {
      assert registry[id] in registry.Values;
      assert ComesBack(registry[id], backend);
    }
  }

  lemma NothingNeedsASource(idOf: Source -> TorrentID)
    ensures SourcesFit(EMPTY, idOf)
  {
  }

  lemma EverySourceIsKnown(acts: seq<Act>)
    ensures Run(EMPTY, acts).sources.Keys == Run(EMPTY, acts).torrents.Keys
  {
    var lib := Run(EMPTY, acts);
    forall id ensures id in lib.torrents <==> id in lib.sources {
      LibraryFollowsTheLog(acts, id);
    }
  }

  lemma HandlesComeFromSources(lib: Library, backend: Backend, idOf: Source -> TorrentID, after: Library)
    requires SourcesFit(lib, idOf) && FaithfulBackend(backend, idOf)
    requires RestoredFrom(EMPTY, Snapshot(lib), backend, after)
    ensures forall id | id in after.torrents ::
              id in lib.sources && backend(lib.sources[id]) == Some(after.torrents[id])
  {
    forall id | id in after.torrents ensures id in lib.sources && backend(lib.sources[id]) == Some(after.torrents[id]) {
      var r :| r in Snapshot(lib).registry.Values && BackAs(r, backend, id, after.torrents[id]);
      var key :| key in lib.torrents && Remembered(lib, key) == r;
    }
  }

  /** One restart keeps the library: after any run of the service, whatever of it
    * the backend finds again is live in the restarted service under the same
    * identifiers, every owner is known, and everybody may read exactly what they
    * could read before. Selections and sources are not kept. */
  lemma RestartKeepsTheLibrary(acts: seq<Act>, backend: Backend, idOf: Source -> TorrentID, after: Library)
    requires FaithfulAdds(acts, idOf) && FaithfulBackend(backend, idOf)
    requires RestoredFrom(EMPTY, Snapshot(Run(EMPTY, acts)), backend, after)
    ensures var lib := Run(EMPTY, acts);
            && lib.sources.Keys == lib.torrents.Keys
            && after.torrents.Keys == (set id | id in lib.sources && backend(lib.sources[id]).Some?)
            && ((forall s :: backend(s).Some?) ==> after.torrents.Keys == lib.torrents.Keys)
            && after.owners == lib.owners
            && (forall visibility, user, id ::
                  CanRead(after, visibility, user, id) == CanRead(lib, visibility, user, id))
            && (forall id | id in after.torrents :: after.torrents[id] == backend(lib.sources[id]).value)
            && after.selected == map[] && after.sources == map[]
  {
    hide Run, FaithfulBackend, SourcesFit, BackAs, Strays;
    var lib := Run(EMPTY, acts);
    NothingNeedsASource(idOf);
    SourcesKeepFitting(EMPTY, acts, idOf);
    RestoredSet(lib, backend, idOf);
    EverySourceIsKnown(acts);
    HandlesComeFromSources(lib, backend, idOf, after);
    assert map[] + lib.owners == lib.owners;
  }

  /** Whatever the backend answers, and whatever was there before: a record comes back
    * exactly if it has a source, a magnet link or a file, that the backend finds as the
    * torrent it was saved for; a source found as another torrent is handed back; and what
    * the disk says about an owner replaces what was known. */
  lemma RestartIsExact(before: Library, disk: Disk, backend: Backend, after: Library, id: TorrentID)
    requires RestoredFrom(before, disk, backend, after)
    ensures id in after.torrents <==>
              || id in before.torrents
              || exists r | r in disk.registry.Values ::
                r.infoHash == id && (r.source.magnetURI != "" || |r.source.torrent| > 0)
                && backend(r.source).Some? && backend(r.source).value.id == id
    ensures id in after.torrents && id !in before.torrents ==> after.torrents[id].id == id
    ensures id in Strays(disk.registry.Values, backend) <==>
              exists r | r in disk.registry.Values ::
                r.infoHash != id && (r.source.magnetURI != "" || |r.source.torrent| > 0)
                && backend(r.source).Some? && backend(r.source).value.id == id
    ensures id in after.owners <==> id in before.owners || id in disk.owners
    ensures id in after.owners ==> after.owners[id] == if id in disk.owners then disk.owners[id] else before.owners[id]
  {
    if id in Restorable(disk.registry.Values, backend) {
      var r :| r in disk.registry.Values && ComesBack(r, backend) && r.infoHash == id;
    }
    if id in Strays(disk.registry.Values, backend) {
      var r :| r in disk.registry.Values && Readded(r, backend).Some? && !ComesBack(r, backend)
          && Readded(r, backend).value.id == id;
    }
  }

  /** Torrents whose source is known are those added in this very run. */
  lemma {:induction false} KnownSourcesWereAdded(start: Library, acts: seq<Act>, id: TorrentID) returns (k: nat)
    requires start.sources == map[] && id in Run(start, acts).sources
    ensures k < |acts| && acts[k].Insert? && acts[k].handle.id == id
  {
    var init := acts[..|acts| - 1];
    if acts[|acts| - 1].Insert? && acts[|acts| - 1].handle.id == id {
      k := |acts| - 1;
    } else {
      k := KnownSourcesWereAdded(start, init, id);
    }
  }

  /** A crash before anything is saved costs nothing: the store still holds what the
    * first restart read, sources included, and the same torrents come back again. */
  lemma CrashKeepsTheOldRegistry(disk: Disk, backend: Backend, first: Library, again: Library)
    requires RestoredFrom(EMPTY, disk, backend, first) && RestoredFrom(EMPTY, disk, backend, again)
    ensures again.torrents.Keys == first.torrents.Keys && again.owners == first.owners
    ensures again.selected == first.selected && again.sources == first.sources
  {
  }

  /** A second restart forgets: whatever a restarted service goes on to do, once it
    * has saved its registry the next restart brings back only torrents that were
    * added anew in between. Everything the first restart brought back and nobody
    * added again is gone. */
  lemma SecondRestartForgets(restarted: Library, acts: seq<Act>, backend: Backend, idOf: Source -> TorrentID,
                             after: Library)
    requires Tidy(restarted) && restarted.sources == map[]
    requires FaithfulAdds(acts, idOf) && FaithfulBackend(backend, idOf)
    requires RestoredFrom(EMPTY, Snapshot(Run(restarted, acts)), backend, after)
    ensures var lib := Run(restarted, acts);
            after.torrents.Keys == set id | id in lib.sources && backend(lib.sources[id]).Some?
    ensures forall id | id in after.torrents :: exists k | 0 <= k < |acts| :: acts[k].Insert? && acts[k].handle.id == id
    ensures acts == [] ==> after.torrents == map[]
  {
    var lib := Run(restarted, acts);
    SourcesKeepFitting(restarted, acts, idOf);
    RestoredSet(lib, backend, idOf);
    StaysTidy(restarted, acts);
    forall id | id in after.torrents ensures exists k | 0 <= k < |acts| :: acts[k].Insert? && acts[k].handle.id == id {
      var k := KnownSourcesWereAdded(restarted, acts, id);
    }
  }
}
