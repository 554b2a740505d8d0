/** A directory that a crash can leave in an earlier state: what a file name may hold after a crash,
    and the calls that the settings save makes on it. */
module FileSystem {
  import opened Text
  import opened Utf8

  /** A file whose data has not been synchronised may hold anything after a crash. */
  datatype File = File(data: Bytes, synced: bool)

  type Directory = map<string, nat>

  /** The directory versions since the last synchronisation, the visible one last. */
  datatype Disk = Disk(files: map<nat, File>, versions: seq<Directory>)

  ghost predicate ListsFiles(v: Directory, files: map<nat, File>) { forall name :: name in v ==> v[name] in files }

  ghost predicate IsDisk(d: Disk) {
    && d.versions != []
    && forall v :: v in d.versions ==> ListsFiles(v, d.files)
  }

  function Visible(d: Disk): Directory
    requires d.versions != []
  {
    d.versions[|d.versions| - 1]
  }

  /** What a process reads under a name. */
  function Contents(d: Disk, name: string): Option<Bytes>
    requires IsDisk(d)
  {
    VisibleListsFiles(d);
    if name in Visible(d) then Some(d.files[Visible(d)[name]].data) else None
  }

  ghost predicate MayHold(d: Disk, v: Directory, name: string, contents: Option<Bytes>) {
    if name in v && v[name] in d.files then
      contents.Some? && (d.files[v[name]].synced ==> d.files[v[name]].data == contents.value)
    else contents == None
  }

  /** After a crash now, `name` may hold `contents`. */
  ghost predicate CrashLeaves(d: Disk, name: string, contents: Option<Bytes>) {
    exists v :: v in d.versions && MayHold(d, v, name, contents)
  }

  /** No version lists `id` under `name`. */
  ghost predicate Unlisted(d: Disk, name: string, id: nat) {
    forall v :: v in d.versions && name in v ==> v[name] != id
  }

  // ---------- The calls ----------

  datatype Creation = Created(id: nat) | AlreadyExists | CreationFailed

  function WithFile(d: Disk, id: nat, file: File): Disk { d.(files := d.files[id := file]) }

  function WithDirectory(d: Disk, v: Directory): Disk { d.(versions := d.versions + [v]) }

  function Renamed(v: Directory, from: string, to: string): Directory
    requires from in v
  {
    (v - {from})[to := v[from]]
  }

  lemma WithFileIsDisk(d: Disk, id: nat, file: File)
    requires IsDisk(d)
    ensures IsDisk(WithFile(d, id, file))
  {
  }

  lemma WithDirectoryIsDisk(d: Disk, v: Directory)
    requires IsDisk(d) && ListsFiles(v, d.files)
    ensures IsDisk(WithDirectory(d, v)) && Visible(WithDirectory(d, v)) == v
  {
    hide ListsFiles;
  }

  lemma VisibleListsFiles(d: Disk)
    requires IsDisk(d)
    ensures ListsFiles(Visible(d), d.files)
  {
    assert Visible(d) in d.versions;
  }

  /** Every state that the disk goes through is kept in `history`. */
  class Volume {
    var disk: Disk
    ghost var history: seq<Disk>

    ghost predicate Valid()
      reads this
    {
      IsDisk(disk) && history != [] && history[|history| - 1] == disk
    }

    constructor (disk: Disk)
      requires IsDisk(disk)
      ensures Valid() && this.disk == disk && history == [disk]
    {
      this.disk, history := disk, [disk];
    }

    method CreateNew(name: string) returns (r: Creation)
      requires Valid()
      modifies this
      ensures Valid()
      ensures r.AlreadyExists? ==> name in Visible(old(disk))
      ensures !r.Created? ==> disk == old(disk) && history == old(history)
      ensures r.Created? ==>
        && name !in Visible(old(disk)) && r.id !in old(disk).files
        && disk == WithDirectory(WithFile(old(disk), r.id, File([], false)), Visible(old(disk))[name := r.id])
        && history == old(history) + [disk]
    {
      if name in Visible(disk) {
        return AlreadyExists;
      }
      var fails: bool := *;
      if fails {
        return CreationFailed;
      }
      ghost var free := SomeIdIsFree(disk.files.Keys);
      assert free !in disk.files;
      var id: nat :| id !in disk.files;
      VisibleListsFiles(disk);
      WithFileIsDisk(disk, id, File([], false));
      WithDirectoryIsDisk(WithFile(disk, id, File([], false)), Visible(disk)[name := id]);
      disk := WithDirectory(WithFile(disk, id, File([], false)), Visible(disk)[name := id]);
      history := history + [disk];
      r := Created(id);
    }

    /** A failed write may leave any part of the data behind. */
    method WriteAll(id: nat, body: Bytes) returns (ok: bool)
      requires Valid() && id in disk.files
      modifies this
      ensures Valid()
      ensures exists data :: disk == WithFile(old(disk), id, File(data, false)) && (ok ==> data == body)
      ensures history == old(history) + [disk]
    {
      var written: nat :| true;
      ok := written >= |body|;
      var data := if ok then body else body[..written];
      WithFileIsDisk(disk, id, File(data, false));
      disk := WithFile(disk, id, File(data, false));
      history := history + [disk];
    }

    method SyncAll(id: nat) returns (ok: bool)
      requires Valid() && id in disk.files
      modifies this
      ensures Valid()
      ensures disk == if ok then WithFile(old(disk), id, old(disk).files[id].(synced := true)) else old(disk)
      ensures history == old(history) + [disk]
    {
      ok := *;
      if ok {
        WithFileIsDisk(disk, id, disk.files[id].(synced := true));
        disk := WithFile(disk, id, disk.files[id].(synced := true));
      }
      history := history + [disk];
    }

    method Remove(name: string)
      requires Valid()
      modifies this
      ensures Valid()
      ensures disk == old(disk) || disk == WithDirectory(old(disk), Visible(old(disk)) - {name})
      ensures history == old(history) + [disk]
    {
      var fails: bool := *;
      if !fails {
        VisibleListsFiles(disk);
        WithDirectoryIsDisk(disk, Visible(disk) - {name});
        disk := WithDirectory(disk, Visible(disk) - {name});
      }
      history := history + [disk];
    }

    method Rename(from: string, to: string) returns (ok: bool)
      requires Valid() && from in Visible(disk)
      modifies this
      ensures Valid()
      ensures disk == if ok then WithDirectory(old(disk), Renamed(Visible(old(disk)), from, to)) else old(disk)
      ensures history == old(history) + [disk]
    {
      ok := *;
      if ok {
        VisibleListsFiles(disk);
        WithDirectoryIsDisk(disk, Renamed(Visible(disk), from, to));
        disk := WithDirectory(disk, Renamed(Visible(disk), from, to));
      }
      history := history + [disk];
    }

    method SyncDirectory() returns (ok: bool)
      requires Valid()
      modifies this
      ensures Valid()
      ensures disk == if ok then old(disk).(versions := [Visible(old(disk))]) else old(disk)
      ensures history == old(history) + [disk]
    {
      ok := *;
      if ok {
        VisibleListsFiles(disk);
        disk := disk.(versions := [Visible(disk)]);
      }
      history := history + [disk];
    }
  }

  lemma {:induction false} SomeIdIsFree(ids: set<nat>) returns (id: nat)
    ensures forall x :: x in ids ==> x < id
    decreases |ids|
  {
    if ids == {} {
      id := 0;
    } else {
      var x :| x in ids;
      var below := SomeIdIsFree(ids - {x});
      id := if below > x then below else x + 1;
      assert forall y :: y in ids ==> y == x || y in ids - {x};
    }
  }
}
