/** Saving the user interface's settings: an atomic file replacement and a copy in memory
    (`PersistedUiSettings` and `atomic_write_file` in ui/web/src/lib.rs, outside Windows). */
module SettingsStore {
  import opened Text
  import opened Utf8
  import opened FileSystem
  import opened UiSettings
  import opened CacheKeys

  // ---------- Atomic replacement ----------

  datatype WriteError = TempNotCreated | TempNotWritten | TempNotSynced | NotReplaced | DirectoryNotSynced

  datatype Written = Replaced | Failed(error: WriteError)

  function TempName(fileName: string, process: nat, counter: nat): string {
    fileName + "." + Decimal(process) + "." + Decimal(counter) + ".tmp"
  }

  lemma TempNamesDiffer(fileName: string, process: nat, a: nat, b: nat)
    requires TempName(fileName, process, a) == TempName(fileName, process, b)
    ensures a == b
  {
    var prefix := fileName + "." + Decimal(process) + ".";
    var s, t := TempName(fileName, process, a), TempName(fileName, process, b);
    assert s[|prefix|..|s| - 4] == Decimal(a);
    assert t[|prefix|..|t| - 4] == Decimal(b);
    DecimalInjective(a, b);
  }

  lemma TempIsNotTheFile(fileName: string, process: nat, counter: nat)
    ensures TempName(fileName, process, counter) != fileName
  {
    assert |TempName(fileName, process, counter)| > |fileName|;
  }

  /** A crash leaves under `name` only what an earlier crash could have left. */
  ghost predicate LeavesOld(was: Disk, now: Disk, name: string) {
    forall c :: CrashLeaves(now, name, c) ==> CrashLeaves(was, name, c)
  }

  /** A crash leaves under `name` what an earlier crash could have left, or the new body. */
  ghost predicate LeavesOldOrNew(was: Disk, now: Disk, name: string, body: Bytes) {
    forall c :: CrashLeaves(now, name, c) ==> CrashLeaves(was, name, c) || c == Some(body)
  }

  /** The new data is in a file of its own that only `temp` names. */
  ghost predicate Staged(was: Disk, now: Disk, name: string, temp: string, id: nat) {
    && IsDisk(was) && IsDisk(now)
    && LeavesOld(was, now, name) && Contents(now, name) == Contents(was, name)
    && id in now.files && Unlisted(now, name, id)
    && temp != name && temp in Visible(now) && Visible(now)[temp] == id
  }

  lemma OtherFile(d: Disk, id: nat, file: File, name: string)
    requires Unlisted(d, name, id)
    ensures forall c :: CrashLeaves(WithFile(d, id, file), name, c) ==> CrashLeaves(d, name, c)
  {
    var e := WithFile(d, id, file);
    forall c | CrashLeaves(e, name, c) ensures CrashLeaves(d, name, c) {
      var v :| v in e.versions && MayHold(e, v, name, c);
      assert v in d.versions && MayHold(d, v, name, c);
    }
  }

  lemma OtherDirectory(d: Disk, v: Directory, name: string)
    ensures forall c :: CrashLeaves(WithDirectory(d, v), name, c) ==> CrashLeaves(d, name, c) || MayHold(d, v, name, c)
  {
    hide MayHold;
    var e := WithDirectory(d, v);
    forall c | CrashLeaves(e, name, c) && !MayHold(d, v, name, c) ensures CrashLeaves(d, name, c) {
      var w :| w in e.versions && MayHold(e, w, name, c);
      SameFiles(e, d, w, name, c);
      assert w in d.versions;
    }
  }

  lemma SameFiles(d: Disk, e: Disk, v: Directory, name: string, c: Option<Bytes>)
    requires d.files == e.files
    ensures MayHold(d, v, name, c) <==> MayHold(e, v, name, c)
  {
  }

  ghost predicate SameEntry(v: Directory, w: Directory, name: string) {
    (name in v <==> name in w) && (name in v ==> v[name] == w[name])
  }

  /** A directory with the same entry for `name` adds nothing that a crash can leave there. */
  lemma SameEntryLeavesOld(d: Disk, v: Directory, name: string)
    requires IsDisk(d) && SameEntry(v, Visible(d), name)
    ensures LeavesOld(d, WithDirectory(d, v), name)
  {
    OtherDirectory(d, v, name);
    assert Visible(d) in d.versions;
    assert forall c :: MayHold(d, v, name, c) ==> MayHold(d, Visible(d), name, c);
  }

  lemma CreatedIsStaged(was: Disk, name: string, temp: string, id: nat)
    requires IsDisk(was) && id !in was.files && temp != name
    ensures Staged(was, WithDirectory(WithFile(was, id, File([], false)), Visible(was)[temp := id]), name, temp, id)
  {
    var d := WithFile(was, id, File([], false));
    var v := Visible(was)[temp := id];
    assert Unlisted(was, name, id) by {
      assert forall w :: w in was.versions && name in w ==> ListsFiles(w, was.files);
    }
    WithFileIsDisk(was, id, File([], false));
    VisibleListsFiles(was);
    OtherFile(was, id, File([], false), name);
    WithDirectoryIsDisk(d, v);
    SameEntryLeavesOld(d, v, name);
    hide CrashLeaves, IsDisk;
    assert Unlisted(WithDirectory(d, v), name, id) by {
      assert name in Visible(was) ==> Visible(was)[name] != id;
    }
  }

  lemma RewrittenIsStaged(was: Disk, now: Disk, name: string, temp: string, id: nat, file: File)
    requires Staged(was, now, name, temp, id)
    ensures Staged(was, WithFile(now, id, file), name, temp, id)
  {
    OtherFile(now, id, file, name);
    WithFileIsDisk(now, id, file);
    assert Visible(now) in now.versions;
    hide CrashLeaves, IsDisk;
  }

  lemma RemovedLeavesOld(was: Disk, now: Disk, name: string, temp: string, id: nat)
    requires Staged(was, now, name, temp, id)
    ensures var after := WithDirectory(now, Visible(now) - {temp});
      IsDisk(after) && LeavesOld(was, after, name) && Contents(after, name) == Contents(was, name)
  {
    var v := Visible(now) - {temp};
    VisibleListsFiles(now);
    WithDirectoryIsDisk(now, v);
    SameEntryLeavesOld(now, v, name);
    hide CrashLeaves, IsDisk;
  }

  lemma RenamedLeavesOldOrNew(was: Disk, now: Disk, name: string, temp: string, id: nat, body: Bytes)
    requires Staged(was, now, name, temp, id) && now.files[id] == File(body, true)
    ensures var after := WithDirectory(now, Renamed(Visible(now), temp, name));
      && IsDisk(after) && LeavesOldOrNew(was, after, name, body) && Contents(after, name) == Some(body)
      && Visible(after) == Renamed(Visible(now), temp, name)
  {
    var v := Renamed(Visible(now), temp, name);
    VisibleListsFiles(now);
    WithDirectoryIsDisk(now, v);
    OtherDirectory(now, v, name);
    assert forall c :: MayHold(now, v, name, c) ==> c == Some(body);
    hide CrashLeaves, IsDisk;
  }

  lemma SyncedLeavesNew(d: Disk, name: string, id: nat, body: Bytes)
    requires IsDisk(d) && name in Visible(d) && Visible(d)[name] == id && id in d.files &&
      d.files[id] == File(body, true)
    ensures var after := d.(versions := [Visible(d)]);
      && IsDisk(after) && Contents(after, name) == Some(body)
      && forall c :: CrashLeaves(after, name, c) <==> c == Some(body)
  {
    var after := d.(versions := [Visible(d)]);
    VisibleListsFiles(d);
    assert Visible(d) in after.versions;
    assert MayHold(after, Visible(d), name, Some(body));
  }

  /** Every state that was added to the history leaves the complete old or the complete new contents. */
  ghost predicate AlwaysOldOrNew(before: seq<Disk>, history: seq<Disk>, was: Disk, name: string, body: Bytes) {
    forall d :: d in history ==> d in before || LeavesOldOrNew(was, d, name, body)
  }

  lemma HistoryGrows(before: seq<Disk>, history: seq<Disk>, was: Disk, d: Disk, name: string, body: Bytes)
    requires AlwaysOldOrNew(before, history, was, name, body)
    requires LeavesOldOrNew(was, d, name, body) || LeavesOld(was, d, name)
    ensures AlwaysOldOrNew(before, history + [d], was, name, body)
  {
    hide CrashLeaves;
  }

  method CreateTemp(volume: Volume, fileName: string, process: nat, counter: nat)
    returns (r: Creation, temp: string, next: nat)
    requires volume.Valid()
    modifies volume
    ensures volume.Valid() && counter < next && !r.AlreadyExists?
    ensures temp != fileName
    ensures r.CreationFailed? ==> volume.disk == old(volume.disk) && volume.history == old(volume.history)
    ensures r.Created? ==>
      && Staged(old(volume.disk), volume.disk, fileName, temp, r.id)
      && volume.history == old(volume.history) + [volume.disk]
  {
    hide Staged, TempName;
    next := counter;
    var untried := Visible(volume.disk).Keys;
    while true
      invariant counter <= next
      invariant volume.Valid() && volume.disk == old(volume.disk) && volume.history == old(volume.history)
      invariant untried <= Visible(volume.disk).Keys
      invariant forall k :: next <= k && TempName(fileName, process, k) in Visible(volume.disk) ==>
        TempName(fileName, process, k) in untried
      decreases untried
    {
      temp := TempName(fileName, process, next);
      TempIsNotTheFile(fileName, process, next);
      forall k | next < k ensures TempName(fileName, process, k) != temp {
        if TempName(fileName, process, k) == temp {
          TempNamesDiffer(fileName, process, k, next);
        }
      }
      next := next + 1;
      r := volume.CreateNew(temp);
      if r.AlreadyExists? {
        untried := untried - {temp};
        continue;
      }
      if r.Created? {
        CreatedIsStaged(old(volume.disk), fileName, temp, r.id);
      }
      return;
    }
  }

  /** Writes and synchronises the staged file. */
  method WriteTemp(volume: Volume, ghost was: Disk, ghost before: seq<Disk>, fileName: string, temp: string,
                   id: nat, body: Bytes)
    returns (error: Option<WriteError>)
    requires volume.Valid() && Staged(was, volume.disk, fileName, temp, id)
    requires AlwaysOldOrNew(before, volume.history, was, fileName, body)
    modifies volume
    ensures volume.Valid() && Staged(was, volume.disk, fileName, temp, id)
    ensures AlwaysOldOrNew(before, volume.history, was, fileName, body)
    ensures error.None? ==> id in volume.disk.files && volume.disk.files[id] == File(body, true)
    ensures error.Some? ==> error == Some(TempNotWritten) || error == Some(TempNotSynced)
  {
    ghost var start := volume.disk;
    var written := volume.WriteAll(id, body);
    ghost var data :| volume.disk == WithFile(start, id, File(data, false)) && (written ==> data == body);
    hide CrashLeaves, IsDisk;
    RewrittenIsStaged(was, start, fileName, temp, id, File(data, false));
    HistoryGrows(before, old(volume.history), was, volume.disk, fileName, body);
    if !written {
      return Some(TempNotWritten);
    }
    ghost var rewritten, history := volume.disk, volume.history;
    var synced := volume.SyncAll(id);
    if synced {
      RewrittenIsStaged(was, rewritten, fileName, temp, id, File(body, true));
    }
    HistoryGrows(before, history, was, volume.disk, fileName, body);
    error := if synced then None else Some(TempNotSynced);
  }

  method RemoveTemp(volume: Volume, ghost was: Disk, ghost before: seq<Disk>, fileName: string, temp: string,
                    ghost id: nat, ghost body: Bytes)
    requires volume.Valid() && Staged(was, volume.disk, fileName, temp, id)
    requires AlwaysOldOrNew(before, volume.history, was, fileName, body)
    modifies volume
    ensures volume.Valid()
    ensures AlwaysOldOrNew(before, volume.history, was, fileName, body)
    ensures IsDisk(was) && LeavesOld(was, volume.disk, fileName) &&
      Contents(volume.disk, fileName) == Contents(was, fileName)
  {
    RemovedLeavesOld(was, volume.disk, fileName, temp, id);
    volume.Remove(temp);
    hide CrashLeaves, IsDisk;
    HistoryGrows(before, old(volume.history), was, volume.disk, fileName, body);
  }

  method ReplaceFile(volume: Volume, ghost was: Disk, ghost before: seq<Disk>, fileName: string, temp: string,
                     ghost id: nat, ghost body: Bytes)
    returns (renamed: bool, synced: bool)
    requires volume.Valid() && Staged(was, volume.disk, fileName, temp, id) && volume.disk.files[id] == File(body, true)
    requires AlwaysOldOrNew(before, volume.history, was, fileName, body)
    modifies volume
    ensures volume.Valid()
    ensures AlwaysOldOrNew(before, volume.history, was, fileName, body)
    ensures !renamed ==> !synced && volume.disk == old(volume.disk)
    ensures renamed ==>
      LeavesOldOrNew(was, volume.disk, fileName, body) && Contents(volume.disk, fileName) == Some(body)
    ensures synced ==> renamed && forall c :: CrashLeaves(volume.disk, fileName, c) <==> c == Some(body)
  {
    ghost var start := volume.disk;
    RenamedLeavesOldOrNew(was, start, fileName, temp, id, body);
    renamed := volume.Rename(temp, fileName);
    HistoryGrows(before, old(volume.history), was, volume.disk, fileName, body);
    synced := false;
    if renamed {
      SyncedLeavesNew(volume.disk, fileName, id, body);
      ghost var history := volume.history;
      synced := volume.SyncDirectory();
      hide CrashLeaves, IsDisk;
      HistoryGrows(before, history, was, volume.disk, fileName, body);
    }
  }

  /** Writes the body beside the file, synchronises it, and only then renames it over the file. */
  method AtomicWriteFile(volume: Volume, fileName: string, body: Bytes, process: nat, counter: nat)
    returns (r: Written, next: nat)
    requires volume.Valid()
    modifies volume
    ensures volume.Valid() && counter < next
    // At every point a crash leaves the complete old or the complete new contents.
    ensures AlwaysOldOrNew(old(volume.history), volume.history, old(volume.disk), fileName, body)
    ensures LeavesOldOrNew(old(volume.disk), volume.disk, fileName, body)
    // A replacement lasts; one that could not be synchronised is visible; a failure before it changes nothing.
    ensures r == Replaced ==> forall c :: CrashLeaves(volume.disk, fileName, c) <==> c == Some(body)
    ensures r == Replaced || r == Failed(DirectoryNotSynced) ==> Contents(volume.disk, fileName) == Some(body)
    ensures r.Failed? && r.error != DirectoryNotSynced ==>
      Contents(volume.disk, fileName) == Contents(old(volume.disk), fileName) &&
        LeavesOld(old(volume.disk), volume.disk, fileName)
  {
    hide CrashLeaves, IsDisk;
    ghost var before, was := volume.history, volume.disk;
    var creation, temp, n := CreateTemp(volume, fileName, process, counter);
    next := n;
    if creation.CreationFailed? {
      return Failed(TempNotCreated), next;
    }
    var id := creation.id;
    HistoryGrows(before, before, was, volume.disk, fileName, body);
    var error := WriteTemp(volume, was, before, fileName, temp, id, body);
    if error.Some? {
      RemoveTemp(volume, was, before, fileName, temp, id, body);
      return Failed(error.value), next;
    }
    var renamed, synced := ReplaceFile(volume, was, before, fileName, temp, id, body);
    if !renamed {
      RemoveTemp(volume, was, before, fileName, temp, id, body);
      return Failed(NotReplaced), next;
    }
    r := if synced then Replaced else Failed(DirectoryNotSynced);
  }

  // ---------- Many saves ----------

  /** `disks[i]` is the disk before save `i`, whose body is `bodies[i]`. */
  ghost predicate AreSaves(disks: seq<Disk>, bodies: seq<Bytes>, name: string) {
    && |disks| == |bodies| + 1
    && forall i :: 0 <= i < |bodies| ==> LeavesOldOrNew(disks[i], disks[i + 1], name, bodies[i])
  }

  /** Over any sequence of saves, successful or not, a crash at any point of the next one leaves what a
      crash could have left at the very beginning or one of the complete bodies saved since. */
  lemma {:induction false} CrashLeavesSomeSave(disks: seq<Disk>, bodies: seq<Bytes>, name: string, now: Disk,
                                               body: Bytes, c: Option<Bytes>)
    requires AreSaves(disks, bodies, name) && LeavesOldOrNew(disks[|bodies|], now, name, body)
    requires CrashLeaves(now, name, c)
    ensures CrashLeaves(disks[0], name, c) || (c.Some? && (c.value == body || c.value in bodies))
    decreases |bodies|
  {
    hide CrashLeaves;
    var n := |bodies|;
    if n > 0 && c != Some(body) {
      assert CrashLeaves(disks[n], name, c);
      assert AreSaves(disks[..n], bodies[..n - 1], name);
      CrashLeavesSomeSave(disks[..n], bodies[..n - 1], name, disks[n], bodies[n - 1], c);
    }
  }

  // ---------- The store ----------

  /** JSON, as far as the store uses it. */
  datatype Codec = Codec(encode: Settings -> Bytes, decode: Bytes -> Option<Settings>)

  ghost predicate RoundTrips(codec: Codec) {
    forall s :: IsNormal(s) ==> codec.decode(codec.encode(s)) == Some(s)
  }

  datatype SaveError = DirectoryNotCreated | NotSerialized | WriteFailed(error: WriteError)

  datatype Saved = Ok(settings: Settings) | Err(error: SaveError)

  /** The settings in memory and those that the visible file decodes to. */
  datatype Store = Store(memory: Settings, file: Option<Settings>)

  datatype Outcome = FailedBefore | FailedAfter | Completed

  /** What a save does to memory and file, given how the writing ends. */
  function SaveStep(s: Store, incoming: Settings, outcome: Outcome): Store {
    var merged := Normalized(Merged(incoming, s.memory));
    if s.memory == merged then s
    else
      match outcome
      case FailedBefore => s
      case FailedAfter => s.(file := Some(merged))
      case Completed => Store(merged, Some(merged))
  }

  function Decoded(codec: Codec, contents: Option<Bytes>): Option<Settings> {
    if contents.Some? then codec.decode(contents.value) else None
  }

  class PersistedUiSettings {
    const fileName: string
    const process: nat
    const codec: Codec
    const volume: Volume
    var settings: Settings
    var counter: nat

    ghost predicate Valid()
      reads this, volume
    {
      volume.Valid() && RoundTrips(codec)
    }

    ghost function View(): Store
      reads this, volume
      requires Valid()
    {
      Store(settings, Decoded(codec, Contents(volume.disk, fileName)))
    }

    /** A file that is missing, unreadable or no JSON yields the defaults. */
    constructor Load(fileName: string, process: nat, codec: Codec, volume: Volume)
      requires volume.Valid() && RoundTrips(codec)
      ensures Valid() && this.volume == volume && this.fileName == fileName && this.codec == codec
      ensures settings == DEFAULT ||
        (Decoded(codec, Contents(volume.disk, fileName)).Some? &&
         settings == Normalized(Decoded(codec, Contents(volume.disk, fileName)).value))
    {
      this.fileName, this.process, this.codec, this.volume, counter := fileName, process, codec, volume, 0;
      var unreadable: bool := *;
      var stored := Decoded(codec, Contents(volume.disk, fileName));
      settings := if unreadable || stored.None? then DEFAULT else Normalized(stored.value);
    }

    method Save(incoming: Settings) returns (r: Saved)
      requires Valid()
      modifies this, volume
      ensures Valid()
      // Memory and file change as one of the three outcomes says, and the answer tells which.
      ensures r.Ok? ==> View() == SaveStep(old(View()), incoming, Completed)
      ensures r.Ok? ==> r.settings == settings == Normalized(Merged(incoming, old(settings)))
      ensures r.Err? ==> old(settings) != Normalized(Merged(incoming, old(settings)))
      ensures r.Err? ==>
        View() == SaveStep(old(View()), incoming,
          if r.error == WriteFailed(DirectoryNotSynced) then FailedAfter else FailedBefore)
      // Equal settings are not written again.
      ensures old(settings) == Normalized(Merged(incoming, old(settings))) ==> volume.disk == old(volume.disk)
      // At every point a crash leaves the complete old or the complete new file.
      ensures AlwaysOldOrNew(old(volume.history), volume.history, old(volume.disk), fileName,
                             codec.encode(Normalized(Merged(incoming, old(settings)))))
      ensures LeavesOldOrNew(old(volume.disk), volume.disk, fileName,
                             codec.encode(Normalized(Merged(incoming, old(settings)))))
    {
      hide Normalized, Merged, CrashLeaves, IsDisk, IsNormal;
      NormalizedIsNormal(Merged(incoming, settings));
      var merged := Normalized(Merged(incoming, settings));
      if settings == merged {
        return Ok(merged);
      }
      var noDirectory: bool := *;
      if noDirectory {
        return Err(DirectoryNotCreated);
      }
      var unserializable: bool := *;
      if unserializable {
        return Err(NotSerialized);
      }
      var written, next := AtomicWriteFile(volume, fileName, codec.encode(merged), process, counter);
      counter := next;
      if written.Failed? {
        return Err(WriteFailed(written.error));
      }
      settings := merged;
      r := Ok(merged);
    }
  }

  // ---------- What memory and file say about each other ----------

  function FileKeys(s: Store): set<string> { if s.file.Some? then s.file.value.extra.Keys else {} }

  /** Memory knows every unknown key of the file. */
  predicate KnowsKeys(s: Store) { FileKeys(s) <= s.memory.extra.Keys }

  /** What a restart would load. */
  function Reloaded(s: Store): Settings { if s.file.Some? then Normalized(s.file.value) else DEFAULT }

  predicate InSync(s: Store) { s.memory == Reloaded(s) }

  function Other(profile: Option<string>): Option<string> { if profile == Some("a") then Some("b") else Some("a") }

  lemma OtherIsWritten(s: Store)
    ensures var incoming := s.memory.(profile := Other(s.memory.profile), extra := map[]);
      var t := SaveStep(s, incoming, Completed); t.file.Some? && t.file.value.extra == s.memory.extra
  {
    var incoming := s.memory.(profile := Other(s.memory.profile), extra := map[]);
    assert IsNormalText(incoming.profile);
    TextIsNormal(incoming.profile);
    assert Normalized(Merged(incoming, s.memory)).profile == incoming.profile;
    assert Merged(incoming, s.memory).extra == s.memory.extra;
  }

  /** No save can lose an unknown key from the file exactly when memory knows all of them. */
  lemma KeysAreSafe(s: Store)
    ensures KnowsKeys(s) <==> forall incoming, outcome :: FileKeys(s) <= FileKeys(SaveStep(s, incoming, outcome))
  {
    if KnowsKeys(s) {
      forall incoming, outcome ensures FileKeys(s) <= FileKeys(SaveStep(s, incoming, outcome)) {
        hide NormalizedText, OneOf;
      }
    } else {
      OtherIsWritten(s);
      var incoming := s.memory.(profile := Other(s.memory.profile), extra := map[]);
      hide SaveStep;
      assert !(FileKeys(s) <= FileKeys(SaveStep(s, incoming, Completed)));
    }
  }

  /** A save keeps that exactly when it does not fail behind the replacement with a new key. */
  lemma KnowingKeysLasts(s: Store, incoming: Settings, outcome: Outcome)
    requires KnowsKeys(s)
    ensures KnowsKeys(SaveStep(s, incoming, outcome)) <==>
      !(outcome == FailedAfter && exists key :: key in incoming.extra && key !in s.memory.extra)
  {
    hide NormalizedText, OneOf;
    var merged := Normalized(Merged(incoming, s.memory));
    if key :| key in incoming.extra && key !in s.memory.extra {
      assert key in merged.extra;
    }
  }

  /** Memory and file stay the same settings exactly when no save fails behind the replacement. */
  lemma SyncLasts(s: Store, incoming: Settings, outcome: Outcome)
    requires InSync(s)
    ensures InSync(SaveStep(s, incoming, outcome)) <==>
      !(outcome == FailedAfter && s.memory != Normalized(Merged(incoming, s.memory)))
  {
    NormalizedIsNormal(Merged(incoming, s.memory));
    hide Normalized, Merged;
  }

  function SaveAll(s: Store, saves: seq<(Settings, Outcome)>): Store
    decreases |saves|
  {
    if saves == [] then s else SaveAll(SaveStep(s, saves[0].0, saves[0].1), saves[1..])
  }

  /** Over any sequence of saves none of which fails behind the replacement, no unknown key of the
      file is lost, and memory is always what a restart would load. */
  lemma {:induction false} SavesKeepKeys(s: Store, saves: seq<(Settings, Outcome)>)
    requires InSync(s) && KnowsKeys(s)
    requires forall i :: 0 <= i < |saves| ==> saves[i].1 != FailedAfter
    ensures var t := SaveAll(s, saves); InSync(t) && KnowsKeys(t) && FileKeys(s) <= FileKeys(t)
    decreases |saves|
  {
    if saves != [] {
      var next := SaveStep(s, saves[0].0, saves[0].1);
      SyncLasts(s, saves[0].0, saves[0].1);
      KnowingKeysLasts(s, saves[0].0, saves[0].1);
      KeysAreSafe(s);
      hide SaveStep, InSync, KnowsKeys, FileKeys;
      SavesKeepKeys(next, saves[1..]);
    }
  }

  /** Loading a file that decodes puts memory in step with it.  Loading the defaults over a file that could not
      be read forgets its unknown keys, if it has any, and is out of step with it unless it holds the
      defaults; saving the defaults then succeeds without writing them. */
  lemma LoadingKnowsKeys(file: Settings)
    ensures InSync(Store(Normalized(file), Some(file))) && KnowsKeys(Store(Normalized(file), Some(file)))
    ensures KnowsKeys(Store(DEFAULT, Some(file))) <==> file.extra == map[]
    ensures InSync(Store(DEFAULT, Some(file))) <==> Normalized(file) == DEFAULT
    ensures var started := Store(DEFAULT, Some(file)); SaveStep(started, DEFAULT, Completed) == started
  {
    DefaultIsSaved();
    if file.extra != map[] {
      var key :| key in file.extra;
    }
  }

  /** Saving the defaults over defaults in memory writes nothing, whatever the file holds. */
  lemma DefaultIsSaved()
    ensures Normalized(Merged(DEFAULT, DEFAULT)) == DEFAULT
  {
    MergedWithItself(DEFAULT);
    NormalizedIsNormal(DEFAULT);
    assert IsNormal(DEFAULT);
  }

  /** The next start sees a key, the save after it loses the key. */
  lemma SyncFailureLosesKey(value: Value)
    ensures
      var s := Store(DEFAULT, Some(DEFAULT));
      var first := SaveStep(s, DEFAULT.(extra := map["k" := value]), FailedAfter);
      var second := SaveStep(first, DEFAULT.(profile := Some("a")), Completed);
      "k" in FileKeys(first) && "k" !in FileKeys(second)
  {
    TextIsNormal(Some("a"));
    assert IsNormalText(Some("a"));
    var s := Store(DEFAULT, Some(DEFAULT));
    var first := SaveStep(s, DEFAULT.(extra := map["k" := value]), FailedAfter);
    assert "k" in Normalized(Merged(DEFAULT.(extra := map["k" := value]), DEFAULT)).extra;
    var second := SaveStep(first, DEFAULT.(profile := Some("a")), Completed);
    assert Merged(DEFAULT.(profile := Some("a")), DEFAULT).extra == map[];
  }

  /** After such a failure the old settings can be saved with success although the file keeps the new ones. */
  lemma SuccessWithoutWriting(s: Store, incoming: Settings)
    requires InSync(s) && s.memory != Normalized(Merged(incoming, s.memory))
    ensures var failed := SaveStep(s, incoming, FailedAfter);
      var again := SaveStep(failed, s.memory, Completed);
      again == failed && !InSync(again)
  {
    hide Normalized, Merged;
    SyncLasts(s, incoming, FailedAfter);
    SyncedIsNormal(s);
    MergedWithItself(s.memory);
  }

  lemma SyncedIsNormal(s: Store)
    requires InSync(s)
    ensures Normalized(s.memory) == s.memory
  {
    NormalizedIsNormal(s.memory);
    if s.file.Some? {
      NormalizedIsNormal(s.file.value);
    }
    hide Normalized;
    assert IsNormal(DEFAULT);
  }

  lemma MergedWithItself(s: Settings)
    ensures Merged(s, s) == s
  {
    assert s.extra + s.extra == s.extra;
  }
}
