/** Edits of a signal list, and of its column of names. */
module SignalLists {

  type Signal = seq<bv8>

  datatype Record = Record(name: string, signal: Signal)

  datatype Edit =
    | Insert(index: nat, name: string, signal: Signal)
    | Rename(index: nat, name: string)
    | Delete(index: nat)

  function InsertAt<T>(s: seq<T>, i: nat, x: T): seq<T>
    requires i <= |s|
  {
    s[..i] + [x] + s[i..]
  }

  function RemoveAt<T>(s: seq<T>, i: nat): seq<T>
    requires i < |s|
  {
    s[..i] + s[i + 1..]
  }

  /** What a batch edit should do to the records. */
  function Apply(e: Edit, rs: seq<Record>): seq<Record>
    requires e.index < |rs|
  {
    match e
    case Insert(i, name, signal) => InsertAt(rs, i, Record(name, signal))
    case Rename(i, name) => rs[i := Record(name, rs[i].signal)]
    case Delete(i) => RemoveAt(rs, i)
  }

  /** What it does to the in-memory names. */
  function ApplyNames(e: Edit, names: seq<string>): seq<string>
    requires e.index < |names|
  {
    match e
    case Insert(i, name, _) => InsertAt(names, i, name)
    case Rename(i, name) => names[i := name]
    case Delete(i) => RemoveAt(names, i)
  }

  function Names(rs: seq<Record>): seq<string> {
    seq(|rs|, k requires 0 <= k < |rs| => rs[k].name)
  }

  lemma NamesOfEdit(e: Edit, rs: seq<Record>)
    requires e.index < |rs|
    ensures Names(Apply(e, rs)) == ApplyNames(e, Names(rs))
  {
  }

  lemma NamesAppend(rs: seq<Record>, r: Record)
    ensures Names(rs + [r]) == Names(rs) + [r.name]
  {
  }

  /** An edit tells two columns of names apart exactly where they differ outside its target. */
  lemma EditAgreesIff(e: Edit, a: seq<string>, b: seq<string>)
    requires |a| == |b| && e.index < |a|
    ensures ApplyNames(e, a) == ApplyNames(e, b) <==>
      forall k :: 0 <= k < |a| ==> (k == e.index && !e.Insert?) || a[k] == b[k]
  {
    if ApplyNames(e, a) == ApplyNames(e, b) {
      forall k | 0 <= k < |a| && !(k == e.index && !e.Insert?)
        ensures a[k] == b[k]
      {
        EditKeeps(e, a, k);
        EditKeeps(e, b, k);
      }
    }
  }

  /** Where an edit leaves an entry that is not its target. */
  function PlaceAfter(e: Edit, k: nat): nat
    requires k != e.index || e.Insert?
  {
    if e.Insert? && k >= e.index then k + 1 else if e.Delete? && k > e.index then k - 1 else k
  }

  lemma EditKeeps(e: Edit, names: seq<string>, k: nat)
    requires e.index < |names| && k < |names| && (k != e.index || e.Insert?)
    ensures PlaceAfter(e, k) < |ApplyNames(e, names)| && ApplyNames(e, names)[PlaceAfter(e, k)] == names[k]
  {
  }

  /** What has been written after the first k records have gone through the edit. */
  function Written(e: Edit, rs: seq<Record>, k: nat): seq<Record>
    requires k <= |rs|
  {
    if k <= e.index then rs[..k] else Apply(e, rs[..k])
  }

  function Shown(e: Edit, names: seq<string>, k: nat): seq<string>
    requires e.index < |names|
  {
    if k <= e.index then names else ApplyNames(e, names)
  }

  /** Each step of the batch writes what the edit calls for. */
  lemma WrittenStep(e: Edit, rs: seq<Record>, k: nat)
    requires k < |rs|
    ensures Written(e, rs, k + 1) == Written(e, rs, k) +
      if k != e.index then [rs[k]]
      else match e
           case Insert(_, name, signal) => [Record(name, signal), rs[k]]
           case Rename(_, name) => [Record(name, rs[k].signal)]
           case Delete(_) => []
  {
    assert rs[..k + 1] == rs[..k] + [rs[k]];
  }

  // ---------------------------------------------------------------- moving

  /** Record i taken out and put back at j of what remains. */
  function Moved<T>(s: seq<T>, i: nat, j: nat): (r: seq<T>)
    requires i < |s| && j < |s|
    ensures |r| == |s|
  {
    InsertAt(RemoveAt(s, i), j, s[i])
  }

  lemma InsertedAt<T>(s: seq<T>, j: nat, x: T)
    requires j <= |s|
    ensures InsertAt(s, j, x)[j] == x && RemoveAt(InsertAt(s, j, x), j) == s
    ensures multiset(InsertAt(s, j, x)) == multiset(s) + multiset{x}
  {
    assert s == s[..j] + s[j..];
  }

  lemma RemovedAt<T>(s: seq<T>, i: nat)
    requires i < |s|
    ensures InsertAt(RemoveAt(s, i), i, s[i]) == s
  {
  }

  /** A move puts the record at the new place, keeps the order of the others and loses nothing. */
  lemma MovedPlaces<T>(s: seq<T>, i: nat, j: nat)
    requires i < |s| && j < |s|
    ensures Moved(s, i, j)[j] == s[i]
    ensures RemoveAt(Moved(s, i, j), j) == RemoveAt(s, i)
    ensures multiset(Moved(s, i, j)) == multiset(s)
  {
    InsertedAt(RemoveAt(s, i), j, s[i]);
    InsertedAt(RemoveAt(s, i), i, s[i]);
    RemovedAt(s, i);
  }

  /** Moving there and back is the identity, at the end of the list as anywhere else. */
  lemma MovedBack<T>(s: seq<T>, i: nat, j: nat)
    requires i < |s| && j < |s|
    ensures Moved(Moved(s, i, j), j, i) == s
  {
    MovedPlaces(s, i, j);
    RemovedAt(s, i);
  }

  lemma MovedNowhere<T>(s: seq<T>, i: nat)
    requires i < |s|
    ensures Moved(s, i, i) == s
  {
  }
}

/** What every operation makes of the index and the file, given what storage does at each call. */
module InfraredColumns {
  import opened SignalLists

  datatype Option<T> = None | Some(value: T)

  const FILE_HEADER := "IR signals file"
  const LIBRARY_HEADER := "IR library file"
  const FILE_VERSION := 1

  datatype File = File(header: string, version: nat, records: seq<Record>)

  /** The outcome of each storage call of one operation; `read` and `save` have one for each record. */
  datatype LoadIo = LoadIo(open: bool, header: bool, read: nat -> bool)
  datatype FetchIo = FetchIo(open: bool, read: bool)
  datatype AppendIo = AppendIo(open: bool, save: bool)
  datatype BatchIo = BatchIo(
    openIn: bool, openOut: bool, header: bool, read: nat -> bool, save: nat -> bool, saveNew: bool,
    closeOut: bool, closeIn: bool, clear: bool, rename: bool, stat: bool, remove: bool)
  datatype MoveIo = MoveIo(fetch: FetchIo, delete: BatchIo, insert: BatchIo, append: AppendIo)

  /** The rename removes the destination, ignoring the result, and then renames. If the destination
      could not be removed, a rename that gets through reports that it exists, and changes nothing. */
  datatype Swap = Replaced | Lost | Stale | Refused

  function SwapOf(clear: bool, rename: bool): Swap {
    if clear then (if rename then Replaced else Lost) else if rename then Stale else Refused
  }

  /** The in-memory index and the file it belongs to, if that still exists. */
  datatype Column = Column(names: seq<string>, file: Option<File>)

  /** The index is the whole name column, or names the first records only, or neither. */
  datatype Alignment = Whole | Prefix | Off

  function AlignmentOf(c: Column): Alignment {
    if c.file == None then Off
    else
      var rs, n := c.file.value.records, |c.names|;
      if n > |rs| || c.names != Names(rs[..n]) then Off
      else if n == |rs| then Whole else Prefix
  }

  // ---------------------------------------------------------------- the operations

  function AppendColumn(c: Column, name: string, signal: Signal, io: AppendIo): (Column, bool) {
    if c.file == None || !io.open || !io.save then (c, false)
    else
      var f := c.file.value;
      (Column(c.names + [name], Some(f.(records := f.records + [Record(name, signal)]))), true)
  }

  /** Record k is read, and written if the edit keeps it, with the new one before it if it is there. */
  predicate CopiedAt(e: Edit, io: BatchIo, k: nat) {
    io.read(k) && SavedAt(e, io, k)
  }

  predicate SavedAt(e: Edit, io: BatchIo, k: nat) {
    if k != e.index then io.save(k)
    else match e
         case Insert(_, _, _) => io.saveNew && io.save(k)
         case Rename(_, _) => io.save(k)
         case Delete(_) => true
  }

  /** How many in a row work, counted from k. */
  function Readable(count: nat, read: nat -> bool, k: nat): (n: nat)
    requires k <= count
    ensures k <= n <= count && (n < count ==> !read(n)) && forall i: nat :: k <= i < n ==> read(i)
    decreases count - k
  {
    if k < count && read(k) then Readable(count, read, k + 1) else k
  }

  function Copies(e: Edit, io: BatchIo, records: nat): nat -> bool {
    (k: nat) => k < records && CopiedAt(e, io, k)
  }

  /** Everything up to the rename works: as many records as there are names are read and written. */
  ghost predicate Copied(c: Column, e: Edit, io: BatchIo) {
    && c.file.Some? && io.openIn && io.openOut && io.header
    && |c.names| <= |c.file.value.records| && (forall k: nat :: k < |c.names| ==> CopiedAt(e, io, k))
    && io.closeOut && io.closeIn
  }

  /** A batch edits the first records, as many as there are names, and the names. */
  ghost function BatchColumn(c: Column, e: Edit, io: BatchIo): (Column, bool)
    requires e.index < |c.names|
  {
    if !Copied(c, e, io) then (c, false)
    else match SwapOf(io.clear, io.rename)
      case Replaced =>
        var records := Apply(e, c.file.value.records[..|c.names|]);
        (Column(ApplyNames(e, c.names), Some(File(FILE_HEADER, FILE_VERSION, records))), true)
      case Stale => (Column(ApplyNames(e, c.names), c.file), true)
      case Lost => (Column(c.names, None), false)
      case Refused => (c, false)
  }

  ghost function InsertColumn(c: Column, name: string, signal: Signal, index: nat, io: BatchIo, append: AppendIo)
    : (Column, bool)
  {
    if index >= |c.names| then AppendColumn(c, name, signal, append)
    else BatchColumn(c, Insert(index, name, signal), io)
  }

  function FetchSignal(c: Column, index: nat, io: FetchIo): Option<Signal> {
    if io.open && io.read && c.file.Some? && index < |c.file.value.records|
    then Some(c.file.value.records[index].signal) else None
  }

  /** Fetch, delete, insert; the name comes from the index and the signal from the file. */
  ghost function MoveColumn(c: Column, i: nat, j: nat, io: MoveIo): (Column, bool)
    requires i < |c.names| && j < |c.names|
  {
    if i == j then (c, true)
    else match FetchSignal(c, i, io.fetch)
      case None => (c, false)
      case Some(signal) =>
        var (c', ok) := BatchColumn(c, Delete(i), io.delete);
        if !ok then (c', false) else InsertColumn(c', c.names[i], signal, j, io.insert, io.append)
  }

  predicate Loadable(files: map<string, File>, path: string, io: LoadIo) {
    && io.open && path in files && io.header
    && files[path].header == FILE_HEADER && files[path].version == FILE_VERSION
  }

  /** A load indexes the names up to the first that cannot be read, and reports no error. */
  function LoadColumn(f: File, io: LoadIo): Column {
    Column(Names(f.records[..Readable(|f.records|, io.read, 0)]), Some(f))
  }

  // ---------------------------------------------------------------- when the index stays right

  lemma SlicedNames(rs: seq<Record>, n: nat)
    requires n <= |rs|
    ensures Names(rs[..n]) == Names(rs)[..n] && rs[..|rs|] == rs
  {
  }

  /** After a load the index is the whole name column if and only if no read of an existing record's
      name fails; otherwise it names the records before the first such failure. */
  lemma LoadIsWholeIff(f: File, io: LoadIo)
    ensures AlignmentOf(LoadColumn(f, io)) == Whole <==> forall k: nat :: k < |f.records| ==> io.read(k)
    ensures AlignmentOf(LoadColumn(f, io)) != Off
  {
    var n := Readable(|f.records|, io.read, 0);
    assert |Names(f.records[..n])| == n;
  }

  /** An append keeps a whole index whole and a wrong one wrong; one that stops short continues to name
      the first records only if the new name happens to be that of the first record it had missed. */
  lemma AppendAlignment(c: Column, name: string, signal: Signal, io: AppendIo)
    requires AppendColumn(c, name, signal, io).1
    ensures var rs, n, after := c.file.value.records, |c.names|, AlignmentOf(AppendColumn(c, name, signal, io).0);
      && (after == Whole <==> AlignmentOf(c) == Whole)
      && (after == Prefix <==> AlignmentOf(c) == Prefix && rs[n].name == name)
  {
    var rs, n := c.file.value.records, |c.names|;
    var rs' := rs + [Record(name, signal)];
    NamesAppend(rs, Record(name, signal));
    SlicedNames(rs, |rs|);
    if n < |rs| {
      assert rs'[..n + 1] == rs[..n] + [rs[n]];
      NamesAppend(rs[..n], rs[n]);
      assert (c.names + [name])[..n] == c.names && Names(rs'[..n + 1])[..n] == Names(rs[..n]);
    } else if n == |rs| {
      assert rs'[..n + 1] == rs';
      assert (c.names + [name])[..n] == c.names;
    }
  }

  /** A batch that replaces the file leaves a whole or a wrong index, whole if and only if the index was
      right about every record that keeps its name. So it repairs a short index, by dropping the
      records that were not indexed, and a wrong one only if it was wrong at the target alone. */
  lemma BatchAlignment(c: Column, e: Edit, io: BatchIo)
    requires e.index < |c.names| && Copied(c, e, io) && SwapOf(io.clear, io.rename) == Replaced
    ensures var rs, after := c.file.value.records, AlignmentOf(BatchColumn(c, e, io).0);
      && after != Prefix
      && (after == Whole <==>
            forall k :: 0 <= k < |c.names| ==> (k == e.index && !e.Insert?) || c.names[k] == rs[k].name)
  {
    var rs, n := c.file.value.records, |c.names|;
    NamesOfEdit(e, rs[..n]);
    EditAgreesIff(e, c.names, Names(rs[..n]));
    SlicedNames(Apply(e, rs[..n]), |Apply(e, rs[..n])|);
  }

  /** A whole index stays whole through a batch unless the rename does one half of its work: it loses
      the file and reports an error, or keeps the old file and reports success. In the second case the
      index is right only if it did not change. */
  lemma BatchKeepsWholeIff(c: Column, e: Edit, io: BatchIo)
    requires AlignmentOf(c) == Whole && e.index < |c.names|
    ensures AlignmentOf(BatchColumn(c, e, io).0) == Whole <==>
      !Copied(c, e, io) || io.clear == io.rename || (!io.clear && e.Rename? && e.name == c.names[e.index])
  {
    var rs := c.file.value.records;
    SlicedNames(rs, |rs|);
    if Copied(c, e, io) {
      match SwapOf(io.clear, io.rename)
      case Replaced =>
        BatchAlignment(c, e, io);
      case Stale =>
        if e.Rename? {
          assert ApplyNames(e, c.names)[e.index] == e.name;
        } else {
          assert |ApplyNames(e, c.names)| != |rs|;
        }
      case _ =>
    }
  }

  /** An error leaves index and file as they were if and only if it does not strike between the removal
      of the old file and the rename; a success is the edit if the old file could be removed, and
      otherwise leaves the file untouched. */
  lemma BatchIsAtomicIff(c: Column, e: Edit, io: BatchIo)
    requires e.index < |c.names|
    ensures var (c', ok) := BatchColumn(c, e, io);
      && (!ok ==> (c' == c <==> !(Copied(c, e, io) && io.clear)))
      && (ok && io.clear ==>
            c' == Column(ApplyNames(e, c.names),
                         Some(File(FILE_HEADER, FILE_VERSION, Apply(e, c.file.value.records[..|c.names|])))))
      && (ok && !io.clear ==> c' == Column(ApplyNames(e, c.names), c.file))
      && (ok <==> Copied(c, e, io) && io.rename)
  {
  }

  /** A short index, an append under any other name than that of the first record missed, and a batch:
      the index is wrong from the append on, the batch mends it only if it removes or renames that very
      entry, and the appended record is no longer in the file. */
  lemma ShortIndexThenAppend(c: Column, r: Record, append: AppendIo, c': Column, e: Edit, io: BatchIo)
    requires AlignmentOf(c) == Prefix && c.file.value.records[|c.names|].name != r.name
    requires AppendColumn(c, r.name, r.signal, append) == (c', true)
    requires e.index <= |c.names| && Copied(c', e, io) && SwapOf(io.clear, io.rename) == Replaced
    ensures AlignmentOf(c') == Off
    ensures AlignmentOf(BatchColumn(c', e, io).0) == Whole <==> e.index == |c.names| && !e.Insert?
    ensures BatchColumn(c', e, io).0.file.value.records == Apply(e, c.file.value.records[..|c.names| + 1])
  {
    AppendAlignment(c, r.name, r.signal, append);
    ShortIndexAppended(c.file.value.records, c.names, r);
    MendedAtLast(c', e, io);
  }

  /** An index wrong about its last entry only. */
  lemma MendedAtLast(c: Column, e: Edit, io: BatchIo)
    requires e.index < |c.names| && Copied(c, e, io) && SwapOf(io.clear, io.rename) == Replaced
    requires forall k :: 0 <= k < |c.names| ==> (c.names[k] == c.file.value.records[k].name <==> k < |c.names| - 1)
    ensures AlignmentOf(BatchColumn(c, e, io).0) == Whole <==> e.index == |c.names| - 1 && !e.Insert?
  {
    BatchAlignment(c, e, io);
    var last := |c.names| - 1;
    assert c.names[last] != c.file.value.records[last].name;
  }

  lemma ShortIndexAppended(rs: seq<Record>, names: seq<string>, r: Record)
    requires |names| < |rs| && names == Names(rs[..|names|]) && rs[|names|].name != r.name
    ensures (rs + [r])[..|names| + 1] == rs[..|names| + 1]
    ensures forall k :: 0 <= k <= |names| ==> ((names + [r.name])[k] == (rs + [r])[k].name <==> k < |names|)
  {
    forall k | 0 <= k < |names|
      ensures names[k] == rs[k].name
    {
      assert Names(rs[..|names|])[k] == rs[k].name;
    }
  }

  /** Such a load exists for every file and every record in it: the read of its name fails. */
  lemma ShortIndexIsReachable(f: File, n: nat) returns (io: LoadIo)
    requires n < |f.records|
    ensures AlignmentOf(LoadColumn(f, io)) == Prefix && LoadColumn(f, io).names == Names(f.records[..n])
  {
    io := LoadIo(true, true, k => k != n);
    LoadIsWholeIff(f, io);
    assert !io.read(n);
  }

  /** And both halves of a rename: from every whole index, with every other call working. */
  lemma HalfRenamesAreReachable(c: Column, e: Edit) returns (lost: BatchIo, stale: BatchIo)
    requires AlignmentOf(c) == Whole && e.index < |c.names| && !e.Rename?
    ensures !BatchColumn(c, e, lost).1 && BatchColumn(c, e, lost).0.file == None
    ensures BatchColumn(c, e, stale).1 && BatchColumn(c, e, stale).0.file == c.file
    ensures AlignmentOf(BatchColumn(c, e, stale).0) != Whole
  {
    lost := BatchIo(true, true, true, _ => true, _ => true, true, true, true, true, false, true, true);
    stale := lost.(clear := false, rename := true);
    BatchKeepsWholeIff(c, e, stale);
  }

  // ---------------------------------------------------------------- moving

  /** A success moves the record in index and file alike; a failure leaves them as they were or without
      that one record, and the index right. */
  ghost predicate MoveIsRight(c: Column, i: nat, j: nat, io: MoveIo)
    requires c.file.Some? && |c.names| <= |c.file.value.records| && i < |c.names| && j < |c.names|
  {
    MovedRightly(c, i, j, MoveColumn(c, i, j, io))
  }

  predicate MovedRightly(c: Column, i: nat, j: nat, result: (Column, bool))
    requires c.file.Some? && |c.names| <= |c.file.value.records| && i < |c.names| && j < |c.names|
  {
    var rs, (c', ok) := c.file.value.records[..|c.names|], result;
    && (ok ==> AlignmentOf(c') == Whole && c'.file.value.records == Moved(rs, i, j))
    && (!ok ==> c' == c || (AlignmentOf(c') == Whole && c'.file.value.records == RemoveAt(rs, i)))
  }

  /** The insert that a move makes, and the column it meets. */
  function Reinsertion(c: Column, i: nat, j: nat): Edit
    requires c.file.Some? && i < |c.names| <= |c.file.value.records|
  {
    Insert(j, c.names[i], c.file.value.records[i].signal)
  }

  ghost function Deleted(c: Column, i: nat, io: MoveIo): Column
    requires i < |c.names|
  {
    BatchColumn(c, Delete(i), io.delete).0
  }

  /** The insert does all or none of its rename, or does not get that far, or is an append. */
  ghost predicate InsertIsClean(c: Column, e: Edit, io: BatchIo) {
    e.index >= |c.names| || !Copied(c, e, io) || io.clear == io.rename
  }

  /** The conditions, read off the guards: `same` and `still` say when two half-done renames cancel out. */
  ghost predicate MoveGuards(c: Column, i: nat, j: nat, io: MoveIo, same: bool, still: bool)
    requires c.file.Some? && |c.names| <= |c.file.value.records| && i < |c.names| && j < |c.names|
  {
    var e, c1 := Reinsertion(c, i, j), Deleted(c, i, io);
    if FetchSignal(c, i, io.fetch) == None || !Copied(c, Delete(i), io.delete) then true
    else match SwapOf(io.delete.clear, io.delete.rename)
      case Refused => true
      case Lost => false
      case Replaced => InsertIsClean(c1, e, io.insert)
      case Stale =>
        && j < |c.names| - 1 && Copied(c1, e, io.insert) && io.insert.rename
        && if io.insert.clear then same else still
  }

  lemma NamesHold(c: Column)
    requires AlignmentOf(c) != Off
    ensures |c.names| <= |c.file.value.records|
    ensures forall k :: 0 <= k < |c.names| ==> c.names[k] == c.file.value.records[k].name
  {
    var rs := c.file.value.records[..|c.names|];
    forall k | 0 <= k < |c.names|
      ensures c.names[k] == c.file.value.records[k].name
    {
      assert Names(rs)[k] == rs[k].name;
    }
  }

  lemma InsertTellsApart<T>(a: seq<T>, b: seq<T>, j: nat, x: T)
    requires j <= |a| && j <= |b|
    ensures InsertAt(a, j, x) == InsertAt(b, j, x) <==> a == b
  {
    InsertedAt(a, j, x);
    InsertedAt(b, j, x);
  }

  lemma NamesInsert(rs: seq<Record>, j: nat, r: Record)
    requires j <= |rs|
    ensures Names(InsertAt(rs, j, r)) == InsertAt(Names(rs), j, r.name)
  {
  }

  lemma NamesOfList(rs: seq<Record>, i: nat, j: nat)
    requires i < |rs| && j < |rs|
    ensures Names(RemoveAt(rs, i)) == RemoveAt(Names(rs), i)
    ensures Names(Moved(rs, i, j)) == Moved(Names(rs), i, j)
  {
  }

  /** An index is whole exactly if it is the names of all records. */
  lemma WholeIff(names: seq<string>, f: File)
    ensures AlignmentOf(Column(names, Some(f))) == Whole <==> names == Names(f.records)
  {
    SlicedNames(f.records, |f.records|);
    if names == Names(f.records) {
      assert |names| == |f.records|;
    }
  }

  /** The second half after a delete that did all of its work. */
  lemma InsertAfterDelete(c: Column, r: Record, j: nat, io: MoveIo)
    requires AlignmentOf(c) == Whole && j <= |c.names|
    ensures var (c', ok) := InsertColumn(c, r.name, r.signal, j, io.insert, io.append);
      var clean := InsertIsClean(c, Insert(j, r.name, r.signal), io.insert);
      && (AlignmentOf(c') == Whole <==> clean)
      && (clean && !ok ==> c' == c)
      && (clean && ok ==>
            c'.file.value.records ==
              if j == |c.names| then c.file.value.records + [r] else InsertAt(c.file.value.records, j, r))
      && (!clean && !ok ==> c' != c)
  {
    var rs := c.file.value.records;
    SlicedNames(rs, |rs|);
    if j == |c.names| {
      if AppendColumn(c, r.name, r.signal, io.append).1 {
        AppendAlignment(c, r.name, r.signal, io.append);
      }
    } else {
      BatchKeepsWholeIff(c, Insert(j, r.name, r.signal), io.insert);
    }
  }

  lemma MoveAfterReplaced(c: Column, i: nat, j: nat, io: MoveIo)
    requires AlignmentOf(c) != Off && i < |c.names| && j < |c.names| && i != j
    requires |c.names| <= |c.file.value.records| && FetchSignal(c, i, io.fetch).Some?
    requires Copied(c, Delete(i), io.delete) && SwapOf(io.delete.clear, io.delete.rename) == Replaced
    ensures var clean := InsertIsClean(Deleted(c, i, io), Reinsertion(c, i, j), io.insert);
      && (MoveIsRight(c, i, j, io) <==> clean)
      && (AlignmentOf(MoveColumn(c, i, j, io).0) == Whole <==> clean)
  {
    var rs, r := c.file.value.records[..|c.names|], c.file.value.records[i];
    var c1 := Deleted(c, i, io);
    BatchAlignment(c, Delete(i), io.delete);
    NamesHold(c);
    assert c1.file.value.records == RemoveAt(rs, i) && AlignmentOf(c1) == Whole && |c1.names| == |rs| - 1;
    assert Insert(j, r.name, r.signal) == Reinsertion(c, i, j);
    InsertAfterDelete(c1, r, j, io);
    if j == |c1.names| {
      assert RemoveAt(rs, i) + [r] == Moved(rs, i, j);
    }
  }

  /** The names are one short after a delete that kept the old file and reported success. */
  function StaleColumn(c: Column, i: nat): Column
    requires i < |c.names|
  {
    Column(RemoveAt(c.names, i), c.file)
  }

  /** A second half that reports success and lets the rename through. */
  ghost predicate GetsThrough(c: Column, i: nat, j: nat, io: MoveIo)
    requires c.file.Some? && i < |c.names| <= |c.file.value.records|
  {
    j < |c.names| - 1 && Copied(StaleColumn(c, i), Reinsertion(c, i, j), io.insert) && io.insert.rename
  }

  ghost function InsertedStale(c: Column, i: nat, j: nat, io: MoveIo): (Column, bool)
    requires c.file.Some? && i < |c.names| <= |c.file.value.records|
  {
    InsertColumn(StaleColumn(c, i), c.names[i], c.file.value.records[i].signal, j, io.insert, io.append)
  }

  lemma StaleStops(c: Column, i: nat, j: nat, io: MoveIo)
    requires AlignmentOf(c) != Off && i < |c.names| && j < |c.names| && |c.names| <= |c.file.value.records|
    requires !GetsThrough(c, i, j, io)
    ensures !MovedRightly(c, i, j, InsertedStale(c, i, j, io)) && AlignmentOf(InsertedStale(c, i, j, io).0) != Whole
  {
  }

  lemma StaleRecords(rs: seq<Record>, i: nat, j: nat)
    requires i < |rs| && j < |rs| - 1
    ensures InsertAt(rs[..|rs| - 1], j, rs[i]) == Moved(rs, i, j) <==> rs[..|rs| - 1] == RemoveAt(rs, i)
    ensures rs[..|rs| - 1] == RemoveAt(rs, i) ==> Names(rs)[..|rs| - 1] == RemoveAt(Names(rs), i)
  {
    InsertTellsApart(rs[..|rs| - 1], RemoveAt(rs, i), j, rs[i]);
    SlicedNames(rs, |rs| - 1);
    NamesOfList(rs, i, j);
  }

  lemma StaleNames(rs: seq<Record>, i: nat, j: nat)
    requires i < |rs| && j < |rs| - 1
    ensures var n, names := |rs|, Names(rs);
      InsertAt(RemoveAt(names, i), j, rs[i].name) == Names(InsertAt(rs[..n - 1], j, rs[i])) <==>
        names[..n - 1] == RemoveAt(names, i)
  {
    var n, names := |rs|, Names(rs);
    SlicedNames(rs, n - 1);
    NamesInsert(rs[..n - 1], j, rs[i]);
    InsertTellsApart(RemoveAt(names, i), names[..n - 1], j, rs[i].name);
  }

  lemma SucceedsRightly(c: Column, i: nat, j: nat, names: seq<string>, f: File)
    requires c.file.Some? && |c.names| <= |c.file.value.records| && i < |c.names| && j < |c.names|
    ensures AlignmentOf(Column(names, Some(f))) == Whole <==> names == Names(f.records)
    ensures MovedRightly(c, i, j, (Column(names, Some(f)), true)) <==>
      names == Names(f.records) && f.records == Moved(c.file.value.records[..|c.names|], i, j)
  {
    WholeIff(names, f);
  }

  lemma InsertedOverStale(c: Column, i: nat, j: nat, io: MoveIo)
    requires AlignmentOf(c) != Off && i < |c.names| && j < |c.names| && |c.names| <= |c.file.value.records|
    requires GetsThrough(c, i, j, io) && io.insert.clear
    ensures var n, rs, r := |c.names|, c.file.value.records[..|c.names|], c.file.value.records[i];
      InsertedStale(c, i, j, io) ==
        (Column(InsertAt(RemoveAt(c.names, i), j, r.name),
                Some(File(FILE_HEADER, FILE_VERSION, InsertAt(rs[..n - 1], j, r)))), true)
  {
    var n, rs, r := |c.names|, c.file.value.records[..|c.names|], c.file.value.records[i];
    NamesHold(c);
    assert r == Record(c.names[i], r.signal) && c.file.value.records[..n - 1] == rs[..n - 1];
  }

  lemma StaleVerdict(names: seq<string>, rs: seq<Record>, i: nat, j: nat)
    requires names == Names(rs) && i < |rs| && j < |rs| - 1
    ensures var n := |rs|;
      var names', rs' := InsertAt(RemoveAt(names, i), j, rs[i].name), InsertAt(rs[..n - 1], j, rs[i]);
      && (names' == Names(rs') && rs' == Moved(rs, i, j) <==> rs[..n - 1] == RemoveAt(rs, i))
      && (names' == Names(rs') <==> names[..n - 1] == RemoveAt(names, i))
  {
    StaleRecords(rs, i, j);
    StaleNames(rs, i, j);
  }

  lemma ReplacedVerdict(c: Column, i: nat, j: nat, names': seq<string>, f: File)
    requires c.file.Some? && |c.names| <= |c.file.value.records| && i < |c.names| && j < |c.names| - 1
    requires var n, rs := |c.names|, c.file.value.records[..|c.names|];
      && c.names == Names(rs) && names' == InsertAt(RemoveAt(c.names, i), j, rs[i].name)
      && f.records == InsertAt(rs[..n - 1], j, rs[i])
    ensures var n, rs := |c.names|, c.file.value.records[..|c.names|];
      && (MovedRightly(c, i, j, (Column(names', Some(f)), true)) <==> rs[..n - 1] == RemoveAt(rs, i))
      && (AlignmentOf(Column(names', Some(f))) == Whole <==> c.names[..n - 1] == RemoveAt(c.names, i))
  {
    StaleVerdict(c.names, c.file.value.records[..|c.names|], i, j);
    SucceedsRightly(c, i, j, names', f);
  }

  lemma StaleThenReplaced(c: Column, i: nat, j: nat, io: MoveIo)
    requires AlignmentOf(c) != Off && i < |c.names| && j < |c.names| && |c.names| <= |c.file.value.records|
    requires GetsThrough(c, i, j, io) && io.insert.clear
    ensures var n, rs := |c.names|, c.file.value.records[..|c.names|];
      && (MovedRightly(c, i, j, InsertedStale(c, i, j, io)) <==> rs[..n - 1] == RemoveAt(rs, i))
      && (AlignmentOf(InsertedStale(c, i, j, io).0) == Whole <==> c.names[..n - 1] == RemoveAt(c.names, i))
  {
    InsertedOverStale(c, i, j, io);
    var result := InsertedStale(c, i, j, io).0;
    ReplacedVerdict(c, i, j, result.names, result.file.value);
  }

  lemma StaleThenStale(c: Column, i: nat, j: nat, io: MoveIo)
    requires AlignmentOf(c) != Off && i < |c.names| && j < |c.names| && |c.names| <= |c.file.value.records|
    requires GetsThrough(c, i, j, io) && !io.insert.clear
    ensures MovedRightly(c, i, j, InsertedStale(c, i, j, io)) <==>
      Moved(c.file.value.records[..|c.names|], i, j) == c.file.value.records
    ensures AlignmentOf(c) == Whole ==>
      (AlignmentOf(InsertedStale(c, i, j, io).0) == Whole <==> Moved(c.names, i, j) == c.names)
  {
    var rs := c.file.value.records[..|c.names|];
    NamesHold(c);
    NamesOfList(rs, i, j);
    WholeIff(Moved(c.names, i, j), c.file.value);
    assert InsertedStale(c, i, j, io) == (Column(Moved(c.names, i, j), c.file), true);
    if AlignmentOf(c) == Whole {
      SlicedNames(c.file.value.records, |c.names|);
    }
  }

  /** The second half after such a delete. */
  lemma InsertAfterStale(c: Column, i: nat, j: nat, io: MoveIo)
    requires AlignmentOf(c) != Off && i < |c.names| && j < |c.names| && |c.names| <= |c.file.value.records|
    ensures var n, rs, all := |c.names|, c.file.value.records[..|c.names|], c.file.value.records;
      MovedRightly(c, i, j, InsertedStale(c, i, j, io)) <==>
        (GetsThrough(c, i, j, io) && if io.insert.clear then rs[..n - 1] == RemoveAt(rs, i) else Moved(rs, i, j) == all)
    ensures var n := |c.names|;
      AlignmentOf(c) == Whole ==>
        (AlignmentOf(InsertedStale(c, i, j, io).0) == Whole <==>
          (GetsThrough(c, i, j, io)
           && if io.insert.clear then c.names[..n - 1] == RemoveAt(c.names, i) else Moved(c.names, i, j) == c.names))
  {
    if !GetsThrough(c, i, j, io) {
      StaleStops(c, i, j, io);
    } else if io.insert.clear {
      StaleThenReplaced(c, i, j, io);
    } else {
      StaleThenStale(c, i, j, io);
    }
  }

  ghost predicate MoveStaysRight(c: Column, i: nat, j: nat, io: MoveIo)
    requires c.file.Some? && |c.names| <= |c.file.value.records| && i < |c.names| && j < |c.names|
  {
    var rs := c.file.value.records[..|c.names|];
    MoveGuards(c, i, j, io, rs[..|rs| - 1] == RemoveAt(rs, i), Moved(rs, i, j) == c.file.value.records)
  }

  ghost predicate MoveStaysWhole(c: Column, i: nat, j: nat, io: MoveIo)
    requires c.file.Some? && |c.names| <= |c.file.value.records| && i < |c.names| && j < |c.names|
  {
    i == j || MoveGuards(c, i, j, io, c.names[..|c.names| - 1] == RemoveAt(c.names, i), Moved(c.names, i, j) == c.names)
  }

  /** A move of a record of a right index, short or whole, is right if and only if it stops before its first
      rename, or that rename does nothing; or does all of its work and the insert's does all or none, or is
      not reached; or else if two half-done renames happen to give the moved list. */
  lemma MoveIsRightIff(c: Column, i: nat, j: nat, io: MoveIo)
    requires AlignmentOf(c) != Off && i < |c.names| && j < |c.names| && i != j
    ensures |c.names| <= |c.file.value.records| && (MoveIsRight(c, i, j, io) <==> MoveStaysRight(c, i, j, io))
  {
    NamesHold(c);
    if FetchSignal(c, i, io.fetch).Some? && Copied(c, Delete(i), io.delete) {
      match SwapOf(io.delete.clear, io.delete.rename)
      case Replaced =>
        MoveAfterReplaced(c, i, j, io);
      case Stale =>
        InsertAfterStale(c, i, j, io);
      case _ =>
    }
  }

  /** And exactly when a whole index stays whole through a move. */
  lemma MoveKeepsWholeIff(c: Column, i: nat, j: nat, io: MoveIo)
    requires AlignmentOf(c) == Whole && i < |c.names| && j < |c.names|
    ensures |c.names| <= |c.file.value.records|
    ensures AlignmentOf(MoveColumn(c, i, j, io).0) == Whole <==> MoveStaysWhole(c, i, j, io)
  {
    NamesHold(c);
    if i != j && FetchSignal(c, i, io.fetch).Some? && Copied(c, Delete(i), io.delete) {
      match SwapOf(io.delete.clear, io.delete.rename)
      case Replaced =>
        MoveAfterReplaced(c, i, j, io);
      case Stale =>
        InsertAfterStale(c, i, j, io);
      case _ =>
    }
  }

  /** In particular if both renames do all or none of their work. */
  lemma MoveAlignment(c: Column, i: nat, j: nat, io: MoveIo)
    requires AlignmentOf(c) != Off && i < |c.names| && j < |c.names| && i != j
    requires io.delete.clear == io.delete.rename && io.insert.clear == io.insert.rename
    ensures |c.names| <= |c.file.value.records| && MoveIsRight(c, i, j, io)
  {
    MoveIsRightIff(c, i, j, io);
  }

  const Perfect := BatchIo(true, true, true, _ => true, _ => true, true, true, true, true, true, true, true)

  const PerfectMove := MoveIo(FetchIo(true, true), Perfect, Perfect, AppendIo(true, true))

  /** Going wrong exists for every move within a whole index: the file is lost and an error reported. */
  lemma MoveLosesFile(c: Column, i: nat, j: nat) returns (io: MoveIo)
    requires AlignmentOf(c) == Whole && i < |c.names| && j < |c.names| && i != j
    ensures !MoveColumn(c, i, j, io).1 && MoveColumn(c, i, j, io).0.file == None
    ensures |c.names| <= |c.file.value.records| && !MoveIsRight(c, i, j, io)
  {
    NamesHold(c);
    io := PerfectMove.(delete := Perfect.(rename := false));
  }

  /** Or success is reported and the index is wrong. */
  lemma MoveMisleads(c: Column, i: nat, j: nat) returns (io: MoveIo)
    requires AlignmentOf(c) == Whole && i < |c.names| && j < |c.names| && i != j
    ensures MoveColumn(c, i, j, io).1 && AlignmentOf(MoveColumn(c, i, j, io).0) != Whole
    ensures |c.names| <= |c.file.value.records| && !MoveIsRight(c, i, j, io)
  {
    NamesHold(c);
    io := if j == |c.names| - 1 then PerfectMove.(delete := Perfect.(clear := false))
          else PerfectMove.(insert := Perfect.(clear := false));
    MoveKeepsWholeIff(c, i, j, io);
  }

  // ---------------------------------------------------------------- runs

  datatype Operation =
    | OpLoad(path: string, load: LoadIo)
    | OpAppend(name: string, signal: Signal, append: AppendIo)
    | OpInsert(name: string, signal: Signal, index: nat, batch: BatchIo, append: AppendIo)
    | OpRename(index: nat, name: string, batch: BatchIo)
    | OpDelete(index: nat, batch: BatchIo)
    | OpMove(index: nat, newIndex: nat, move: MoveIo)

  /** The remote and the files. */
  datatype World = World(path: string, names: seq<string>, files: map<string, File>)

  function ColumnOf(w: World): Column {
    Column(w.names, if w.path in w.files then Some(w.files[w.path]) else None)
  }

  /** The indices the functions assert. */
  predicate Callable(op: Operation, count: nat) {
    match op
    case OpRename(i, _, _) => i < count
    case OpDelete(i, _) => i < count
    case OpMove(i, j, _) => i < count && j < count
    case _ => true
  }

  ghost function Next(c: Column, op: Operation): Column
    requires Callable(op, |c.names|) && !op.OpLoad?
  {
    match op
    case OpAppend(name, signal, io) => AppendColumn(c, name, signal, io).0
    case OpInsert(name, signal, index, io, append) => InsertColumn(c, name, signal, index, io, append).0
    case OpRename(i, name, io) => BatchColumn(c, Rename(i, name), io).0
    case OpDelete(i, io) => BatchColumn(c, Delete(i), io).0
    case OpMove(i, j, io) => MoveColumn(c, i, j, io).0
  }

  /** No file but the remote's own is lost or changed. */
  predicate OthersKept(before: map<string, File>, after: map<string, File>, path: string) {
    forall p <- before :: p != path ==> p in after && after[p] == before[p]
  }

  const TEMPORARY := ".temp"

  /** New files are temporary ones of this remote, no more than so many. */
  predicate OnlyTemporaries(before: map<string, File>, after: map<string, File>, path: string, limit: nat) {
    var added := after.Keys - before.Keys;
    |added| <= limit && forall p <- added :: path + TEMPORARY <= p
  }

  /** How many batches an operation may run, each with a temporary file. */
  function Batches(op: Operation): nat {
    match op
    case OpLoad(_, _) => 0
    case OpAppend(_, _, _) => 0
    case OpMove(_, _, _) => 2
    case _ => 1
  }

  /** From one world to the next. Apart from a temporary file that a batch may leave behind, the next world
      is determined. */
  ghost predicate Follows(w: World, op: Operation, w': World) {
    if !Callable(op, |w.names|) then w' == w
    else if op.OpLoad? then
      w' == if Loadable(w.files, op.path, op.load)
            then World(op.path, LoadColumn(w.files[op.path], op.load).names, w.files) else w
    else
      && w'.path == w.path && ColumnOf(w') == Next(ColumnOf(w), op)
      && OthersKept(w.files, w'.files, w.path) && OnlyTemporaries(w.files, w'.files, w.path, Batches(op))
  }

  ghost predicate Trace(ws: seq<World>, ops: seq<Operation>) {
    |ws| == |ops| + 1 && forall k :: 0 <= k < |ops| ==> Follows(ws[k], ops[k], ws[k + 1])
  }

  ghost predicate BatchStaysWhole(c: Column, e: Edit, io: BatchIo)
    requires e.index < |c.names|
  {
    !Copied(c, e, io) || io.clear == io.rename || (!io.clear && e.Rename? && e.name == c.names[e.index])
  }

  /** The exact condition, for every operation, that it leaves a whole index whole. */
  ghost predicate Undamaging(w: World, op: Operation)
    requires AlignmentOf(ColumnOf(w)) == Whole
  {
    var c := ColumnOf(w);
    NamesHold(c);
    if !Callable(op, |w.names|) then true
    else match op
      case OpLoad(p, io) => Loadable(w.files, p, io) ==> forall k: nat :: k < |w.files[p].records| ==> io.read(k)
      case OpAppend(_, _, _) => true
      case OpInsert(name, signal, i, io, _) => i >= |c.names| || BatchStaysWhole(c, Insert(i, name, signal), io)
      case OpRename(i, name, io) => BatchStaysWhole(c, Rename(i, name), io)
      case OpDelete(i, io) => BatchStaysWhole(c, Delete(i), io)
      case OpMove(i, j, io) => MoveStaysWhole(c, i, j, io)
  }

  lemma StepStaysWholeIff(w: World, op: Operation, w': World)
    requires AlignmentOf(ColumnOf(w)) == Whole && Follows(w, op, w')
    ensures AlignmentOf(ColumnOf(w')) == Whole <==> Undamaging(w, op)
  {
    var c := ColumnOf(w);
    if Callable(op, |w.names|) {
      match op
      case OpLoad(p, io) =>
        if Loadable(w.files, p, io) {
          LoadIsWholeIff(w.files[p], io);
          assert ColumnOf(w') == LoadColumn(w.files[p], io);
        }
      case OpAppend(name, signal, io) =>
        if AppendColumn(c, name, signal, io).1 {
          AppendAlignment(c, name, signal, io);
        }
      case OpInsert(name, signal, i, io, append) =>
        if i < |c.names| {
          BatchKeepsWholeIff(c, Insert(i, name, signal), io);
        } else if AppendColumn(c, name, signal, append).1 {
          AppendAlignment(c, name, signal, append);
        }
      case OpRename(i, name, io) =>
        BatchKeepsWholeIff(c, Rename(i, name), io);
      case OpDelete(i, io) =>
        BatchKeepsWholeIff(c, Delete(i), io);
      case OpMove(i, j, io) =>
        MoveKeepsWholeIff(c, i, j, io);
    }
  }

  predicate WholeAt(ws: seq<World>, k: nat)
    requires k < |ws|
  {
    AlignmentOf(ColumnOf(ws[k])) == Whole
  }

  /** This operation does not damage a whole index. */
  ghost predicate UndamagedAt(ws: seq<World>, ops: seq<Operation>, k: nat)
    requires |ws| == |ops| + 1 && k < |ops|
  {
    WholeAt(ws, k) ==> Undamaging(ws[k], ops[k])
  }

  lemma TraceStaysWholeIff(ws: seq<World>, ops: seq<Operation>, k: nat)
    requires Trace(ws, ops) && k < |ops|
    ensures UndamagedAt(ws, ops, k) <==> (WholeAt(ws, k) ==> WholeAt(ws, k + 1))
  {
    if WholeAt(ws, k) {
      StepStaysWholeIff(ws[k], ops[k], ws[k + 1]);
    }
  }

  lemma {:induction false} RunStaysWhole(ws: seq<World>, ops: seq<Operation>, start: nat, n: nat)
    requires Trace(ws, ops) && start <= n <= |ops| && WholeAt(ws, start)
    requires forall k :: start <= k < n ==> UndamagedAt(ws, ops, k)
    ensures forall k :: start <= k <= n ==> WholeAt(ws, k)
  {
    if n > start {
      RunStaysWhole(ws, ops, start, n - 1);
      TraceStaysWholeIff(ws, ops, n - 1);
    }
  }

  /** Over every run, from any time at which the index is whole, it stays whole if and only if no operation
      on the way meets the condition that damages it. */
  lemma RunStaysWholeIff(ws: seq<World>, ops: seq<Operation>, start: nat, n: nat)
    requires Trace(ws, ops) && start <= n <= |ops| && WholeAt(ws, start)
    ensures (forall k :: start <= k <= n ==> WholeAt(ws, k)) <==>
            (forall k :: start <= k < n ==> UndamagedAt(ws, ops, k))
  {
    if forall k :: start <= k < n ==> UndamagedAt(ws, ops, k) {
      RunStaysWhole(ws, ops, start, n);
    }
    forall k | start <= k < n
      ensures WholeAt(ws, k + 1) ==> UndamagedAt(ws, ops, k)
    {
      TraceStaysWholeIff(ws, ops, k);
    }
  }

  // ---------------------------------------------------------------- calls that work, and calls that fail

  /** Which record an edit puts at a position. */
  function RecordAt(e: Edit, rs: seq<Record>, k: nat): Record
    requires e.index < |rs| && k < |rs| + (if e.Insert? then 1 else if e.Delete? then -1 else 0)
  {
    match e
    case Insert(i, name, signal) => if k < i then rs[k] else if k == i then Record(name, signal) else rs[k - 1]
    case Rename(i, name) => if k == i then Record(name, rs[k].signal) else rs[k]
    case Delete(i) => if k < i then rs[k] else rs[k + 1]
  }

  lemma EditByPosition(e: Edit, rs: seq<Record>)
    requires e.index < |rs|
    ensures |Apply(e, rs)| == |rs| + (if e.Insert? then 1 else if e.Delete? then -1 else 0)
    ensures forall k :: 0 <= k < |Apply(e, rs)| ==> Apply(e, rs)[k] == RecordAt(e, rs, k)
  {
  }

  /** A batch succeeds if and only if every call that it makes does: both files are opened, the header and,
      from every record named, what the edit leaves of it is read and written, both files are closed, and
      the temporary one is renamed. */
  lemma BatchSucceedsExactlyWhen(c: Column, e: Edit, io: BatchIo)
    requires e.index < |c.names|
    ensures BatchColumn(c, e, io).1 <==>
      && c.file.Some? && io.openIn && io.openOut && io.header
      && |c.names| <= |c.file.value.records|
      && (forall k: nat :: k < |c.names| ==> io.read(k))
      && (forall k: nat :: k < |c.names| && !(e.Delete? && k == e.index) ==> io.save(k))
      && (e.Insert? ==> io.saveNew)
      && io.closeOut && io.closeIn && io.rename
  {
    if c.file.Some? && |c.names| <= |c.file.value.records| {
      CopiedByCalls(c, e, io);
    }
  }

  lemma CopiedByCalls(c: Column, e: Edit, io: BatchIo)
    requires e.index < |c.names|
    ensures (forall k: nat :: k < |c.names| ==> CopiedAt(e, io, k)) <==>
      && (forall k: nat :: k < |c.names| ==> io.read(k))
      && (forall k: nat :: k < |c.names| && !(e.Delete? && k == e.index) ==> io.save(k))
      && (e.Insert? ==> io.saveNew)
  {
    forall k: nat | k < |c.names|
      ensures CopiedAt(e, io, k) <==>
        io.read(k) && (!(e.Delete? && k == e.index) ==> io.save(k)) && (e.Insert? && k == e.index ==> io.saveNew)
    {
    }
    if forall k: nat :: k < |c.names| ==> CopiedAt(e, io, k) {
      assert CopiedAt(e, io, e.index);
    }
  }

  /** An append succeeds if and only if the file can be opened and the record saved, and then adds it. */
  lemma AppendExactly(c: Column, name: string, signal: Signal, io: AppendIo)
    ensures AppendColumn(c, name, signal, io).1 <==> c.file.Some? && io.open && io.save
    ensures !AppendColumn(c, name, signal, io).1 ==> AppendColumn(c, name, signal, io).0 == c
    ensures AppendColumn(c, name, signal, io).1 ==>
      var f := c.file.value;
      AppendColumn(c, name, signal, io).0
        == Column(c.names + [name], Some(File(f.header, f.version, f.records + [Record(name, signal)])))
  {
  }

  /** A signal is given if and only if there is one at that place and both calls work. */
  lemma FetchExactly(c: Column, index: nat, io: FetchIo)
    ensures FetchSignal(c, index, io).Some? <==>
      io.open && io.read && c.file.Some? && index < |c.file.value.records|
    ensures FetchSignal(c, index, io).Some? ==> FetchSignal(c, index, io).value == c.file.value.records[index].signal
  {
  }

  /** A file is loaded if and only if it is there with this header and version and both can be read. */
  lemma LoadableExactlyWhen(files: map<string, File>, path: string, io: LoadIo)
    ensures Loadable(files, path, io) <==>
      && path in files && io.open && io.header
      && files[path].header == "IR signals file" && files[path].version == 1
  {
  }

  ghost predicate BatchWorks(io: BatchIo) {
    && io.openIn && io.openOut && io.header && io.saveNew && io.closeOut && io.closeIn && io.clear && io.rename
    && forall k: nat :: io.read(k) && io.save(k)
  }

  ghost predicate AllWork(op: Operation) {
    match op
    case OpLoad(_, io) => io.open && io.header && forall k: nat :: io.read(k)
    case OpAppend(_, _, io) => io.open && io.save
    case OpInsert(_, _, _, io, append) => BatchWorks(io) && append.open && append.save
    case OpRename(_, _, io) => BatchWorks(io)
    case OpDelete(_, io) => BatchWorks(io)
    case OpMove(_, _, io) =>
      && io.fetch.open && io.fetch.read && BatchWorks(io.delete) && BatchWorks(io.insert)
      && io.append.open && io.append.save
  }

  /** What an operation does to a list of records. A place out of range stops the program (rename, delete,
      move), or is the end of the list (insert). */
  function OnList(rs: seq<Record>, op: Operation): seq<Record>
    requires !op.OpLoad?
  {
    match op
    case OpAppend(name, signal, _) => rs + [Record(name, signal)]
    case OpInsert(name, signal, i, _, _) =>
      if i < |rs| then rs[..i] + [Record(name, signal)] + rs[i..] else rs + [Record(name, signal)]
    case OpRename(i, name, _) => if i < |rs| then rs[..i] + [Record(name, rs[i].signal)] + rs[i + 1..] else rs
    case OpDelete(i, _) => if i < |rs| then rs[..i] + rs[i + 1..] else rs
    case OpMove(i, j, _) =>
      if i < |rs| && j < |rs| then
        var others := rs[..i] + rs[i + 1..];
        others[..j] + [rs[i]] + others[j..]
      else rs
  }

  lemma BatchThatWorks(c: Column, e: Edit, io: BatchIo)
    requires AlignmentOf(c) == Whole && e.index < |c.names| && BatchWorks(io)
    ensures |c.names| == |c.file.value.records| && BatchColumn(c, e, io).1
    ensures AlignmentOf(BatchColumn(c, e, io).0) == Whole
    ensures BatchColumn(c, e, io).0.file.value.records == Apply(e, c.file.value.records)
  {
    BatchKeepsWholeIff(c, e, io);
    BatchSucceedsExactlyWhen(c, e, io);
    SlicedNames(c.file.value.records, |c.names|);
  }

  lemma MoveThatWorks(c: Column, i: nat, j: nat, io: MoveIo)
    requires AlignmentOf(c) == Whole && i < |c.names| && j < |c.names| && AllWork(OpMove(i, j, io))
    ensures |c.names| == |c.file.value.records| && MoveColumn(c, i, j, io).1
    ensures AlignmentOf(MoveColumn(c, i, j, io).0) == Whole
    ensures MoveColumn(c, i, j, io).0.file.value.records == Moved(c.file.value.records, i, j)
  {
    var rs := c.file.value.records;
    NamesHold(c);
    if i == j {
      MovedNowhere(rs, i);
    } else {
      BatchThatWorks(c, Delete(i), io.delete);
      var c1 := BatchColumn(c, Delete(i), io.delete).0;
      var r := Record(c.names[i], rs[i].signal);
      if j < |c1.names| {
        BatchThatWorks(c1, Insert(j, r.name, r.signal), io.insert);
      } else {
        AppendAlignment(c1, r.name, r.signal, io.append);
        assert RemoveAt(rs, i) + [r] == Moved(rs, i, j);
      }
    }
  }

  /** A load in which every call works takes over the file it names. */
  lemma LoadThatWorks(w: World, path: string, io: LoadIo, w': World)
    requires Follows(w, OpLoad(path, io), w') && AllWork(OpLoad(path, io)) && path in w.files
    requires w.files[path].header == "IR signals file" && w.files[path].version == 1
    ensures w' == World(path, Names(w.files[path].records), w.files)
  {
    LoadIsWholeIff(w.files[path], io);
    WholeIff(LoadColumn(w.files[path], io).names, w.files[path]);
  }

  /** Any other operation in which every call works does to the file's records what it does to a list, and
      keeps the index whole. */
  lemma StepThatWorks(w: World, op: Operation, w': World)
    requires Follows(w, op, w') && AllWork(op) && !op.OpLoad? && AlignmentOf(ColumnOf(w)) == Whole
    ensures AlignmentOf(ColumnOf(w')) == Whole && w'.path == w.path
    ensures w'.files[w'.path].records == OnList(w.files[w.path].records, op)
  {
    ColumnThatWorks(ColumnOf(w), op);
  }

  lemma ColumnThatWorks(c: Column, op: Operation)
    requires AllWork(op) && !op.OpLoad? && AlignmentOf(c) == Whole
    ensures Callable(op, |c.names|) ==>
      AlignmentOf(Next(c, op)) == Whole && Next(c, op).file.value.records == OnList(c.file.value.records, op)
    ensures !Callable(op, |c.names|) ==> OnList(c.file.value.records, op) == c.file.value.records
  {
    NamesHold(c);
    if Callable(op, |c.names|) {
      match op
      case OpAppend(name, signal, io) =>
        AppendAlignment(c, name, signal, io);
      case OpInsert(name, signal, i, io, append) =>
        InsertThatWorks(c, name, signal, i, io, append);
      case OpRename(i, name, io) =>
        BatchThatWorks(c, Rename(i, name), io);
        EditsOnList(c.file.value.records, op);
      case OpDelete(i, io) =>
        BatchThatWorks(c, Delete(i), io);
        EditsOnList(c.file.value.records, op);
      case OpMove(i, j, io) =>
        MoveThatWorks(c, i, j, io);
        EditsOnList(c.file.value.records, op);
    }
  }

  lemma EditsOnList(rs: seq<Record>, op: Operation)
    requires Callable(op, |rs|)
    ensures op.OpRename? ==> OnList(rs, op) == Apply(Rename(op.index, op.name), rs)
    ensures op.OpDelete? ==> OnList(rs, op) == Apply(Delete(op.index), rs)
    ensures op.OpMove? ==> OnList(rs, op) == Moved(rs, op.index, op.newIndex)
  {
  }

  lemma InsertThatWorks(c: Column, name: string, signal: Signal, i: nat, io: BatchIo, append: AppendIo)
    requires AlignmentOf(c) == Whole && BatchWorks(io) && append.open && append.save
    ensures AlignmentOf(InsertColumn(c, name, signal, i, io, append).0) == Whole
    ensures InsertColumn(c, name, signal, i, io, append).0.file.value.records
         == OnList(c.file.value.records, OpInsert(name, signal, i, io, append))
  {
    NamesHold(c);
    if i < |c.names| {
      BatchThatWorks(c, Insert(i, name, signal), io);
    } else {
      AppendAlignment(c, name, signal, append);
    }
  }

  /** The list after the first n operations. */
  function OnListAll(rs: seq<Record>, ops: seq<Operation>, n: nat): seq<Record>
    requires n <= |ops| && forall op <- ops :: !op.OpLoad?
  {
    if n == 0 then rs else OnList(OnListAll(rs, ops, n - 1), ops[n - 1])
  }

  predicate HasList(w: World, path: string, rs: seq<Record>) {
    AlignmentOf(ColumnOf(w)) == Whole && w.path == path && w.files[path].records == rs
  }

  lemma TraceStepThatWorks(ws: seq<World>, ops: seq<Operation>, k: nat, path: string, rs: seq<Record>)
    requires Trace(ws, ops) && k < |ops| && AllWork(ops[k]) && !ops[k].OpLoad? && HasList(ws[k], path, rs)
    ensures HasList(ws[k + 1], path, OnList(rs, ops[k]))
  {
    StepThatWorks(ws[k], ops[k], ws[k + 1]);
  }

  /** Over every run in which every call works, the remote's file is the list edited by the operations in
      turn, and the index is its column of names. */
  lemma {:induction false} RunThatWorks(ws: seq<World>, ops: seq<Operation>, path: string, rs: seq<Record>, n: nat)
    requires Trace(ws, ops) && n <= |ops| && forall op <- ops :: AllWork(op) && !op.OpLoad?
    requires HasList(ws[0], path, rs)
    ensures HasList(ws[n], path, OnListAll(rs, ops, n))
    decreases n
  {
    if n > 0 {
      RunThatWorks(ws, ops, path, rs, n - 1);
      TraceStepThatWorks(ws, ops, n - 1, path, OnListAll(rs, ops, n - 1));
    }
  }

  /** Over every run, whatever fails: a file is not lost or changed while it is not the remote's own. */
  lemma {:induction false} OtherFilesSurvive(ws: seq<World>, ops: seq<Operation>, p: string, n: nat)
    requires Trace(ws, ops) && n <= |ops| && p in ws[0].files && forall k :: 0 <= k < n ==> ws[k].path != p
    ensures p in ws[n].files && ws[n].files[p] == ws[0].files[p]
  {
    if n > 0 {
      OtherFilesSurvive(ws, ops, p, n - 1);
      assert Follows(ws[n - 1], ops[n - 1], ws[n]);
    }
  }

  /** And a file that was not there is a temporary one of a remote loaded on the way. */
  lemma {:induction false} NewFilesAreTemporary(ws: seq<World>, ops: seq<Operation>, p: string, n: nat)
    requires Trace(ws, ops) && n <= |ops| && p !in ws[0].files && p in ws[n].files
    ensures exists k :: 0 <= k < n && ws[k].path + ".temp" <= p
  {
    assert n > 0;
    assert Follows(ws[n - 1], ops[n - 1], ws[n]);
    if p in ws[n - 1].files {
      NewFilesAreTemporary(ws, ops, p, n - 1);
    } else {
      assert p in ws[n].files.Keys - ws[n - 1].files.Keys;
    }
  }
}

/** The file system. Each call is told whether it works; one that does not changes nothing. */
module SignalFiles {
  import opened SignalLists
  import opened InfraredColumns

  datatype Status = FseOk | FseExist | FseError

  class Storage {
    var files: map<string, File>

    constructor (files: map<string, File>)
      ensures this.files == files
    {
      this.files := files;
    }

    method OpenExisting(path: string, works: bool) returns (ok: bool)
      ensures ok <==> works && path in files
    {
      ok := works && path in files;
    }

    /** Opens for writing, emptying the file. */
    method OpenAlways(path: string, works: bool)
      modifies this
      ensures files == if works then old(files)[path := File("", 0, [])] else old(files)
    {
      if works {
        files := files[path := File("", 0, [])];
      }
    }

    method WriteHeader(path: string, header: string, version: nat, works: bool)
      requires path in files
      modifies this
      ensures files == if works then old(files)[path := File(header, version, old(files)[path].records)] else old(files)
    {
      if works {
        files := files[path := files[path].(header := header, version := version)];
      }
    }

    method SaveSignal(path: string, r: Record, works: bool)
      requires path in files
      modifies this
      ensures files == if works then old(files)[path := old(files)[path].(records := old(files)[path].records + [r])]
                       else old(files)
    {
      if works {
        files := files[path := files[path].(records := files[path].records + [r])];
      }
    }

    method ReadSignal(path: string, k: nat, works: bool) returns (ok: bool, r: Record)
      requires path in files
      ensures ok <==> works && k < |files[path].records|
      ensures ok ==> r == files[path].records[k]
    {
      ok := works && k < |files[path].records|;
      r := if ok then files[path].records[k] else Record("", []);
    }

    /** Removes the destination, whether that works or not, and then renames. */
    method RenameFile(from: string, to: string, clear: bool, rename: bool) returns (status: Status)
      requires from in files && to in files && from != to
      modifies this
      ensures match SwapOf(clear, rename)
        case Replaced => status == FseOk && files == (old(files) - {from})[to := old(files)[from]]
        case Lost => status == FseError && files == old(files) - {to}
        case Stale => status == FseExist && files == old(files)
        case Refused => status == FseError && files == old(files)
    {
      if clear {
        files := files - {to};
      }
      if !rename {
        status := FseError;
      } else if to in files {
        status := FseExist;
      } else {
        status := FseOk;
        files := (files - {from})[to := files[from]];
      }
    }

    method Remove(path: string, works: bool)
      modifies this
      ensures files == if works then old(files) - {path} else old(files)
    {
      if works {
        files := files - {path};
      }
    }
  }
}

/** The remote: a file and an index of its names in memory. */
module InfraredRemotes {
  import opened SignalLists
  import opened InfraredColumns
  import opened SignalFiles

  datatype Error = NoError | FileOperationFailed | WrongFileType | WrongFileVersion | SignalFailed(index: nat)

  /** The files with the remote's own one as given. */
  function WithFile(files: map<string, File>, path: string, f: Option<File>): map<string, File> {
    match f case Some(x) => files[path := x] case None => files - {path}
  }

  /** What a batch reports: the files, or the record at which it stopped. */
  function BatchError(c: Column, e: Edit, io: BatchIo): Error {
    if c.file == None || !io.openIn || !io.openOut || !io.header then FileOperationFailed
    else
      var n := |c.names|;
      var stop := Readable(n, Copies(e, io, |c.file.value.records|), 0);
      if stop < n then SignalFailed(stop % 256)
      else if !io.closeOut || !io.closeIn || !io.rename then FileOperationFailed
      else NoError
  }

  lemma ErrorOfBatch(c: Column, e: Edit, io: BatchIo)
    requires e.index < |c.names|
    ensures BatchError(c, e, io) == NoError <==> BatchColumn(c, e, io).1
    ensures Copied(c, e, io) <==>
      && c.file.Some? && io.openIn && io.openOut && io.header && io.closeOut && io.closeIn
      && Readable(|c.names|, Copies(e, io, |c.file.value.records|), 0) == |c.names|
  {
    if c.file.Some? {
      var n, copies := |c.names|, Copies(e, io, |c.file.value.records|);
      var stop := Readable(n, copies, 0);
      assert stop < n ==> !copies(stop);
      assert stop == n ==> copies(n - 1);
      forall k: nat | k < stop
        ensures CopiedAt(e, io, k)
      {
        assert copies(k);
      }
    }
  }

  /** A batch that stops at a record reports which: the first that is not there or not copied. */
  lemma FirstFailureIsReported(c: Column, e: Edit, io: BatchIo, k: nat)
    requires c.file.Some? && io.openIn && io.openOut && io.header && k < |c.names|
    requires var copies := Copies(e, io, |c.file.value.records|);
      !copies(k) && forall i: nat :: i < k ==> copies(i)
    ensures BatchError(c, e, io) == SignalFailed(k % 256)
  {
    var stop := Readable(|c.names|, Copies(e, io, |c.file.value.records|), 0);
    assert stop == k;
  }

  /** Files that are the same but for a temporary one. */
  predicate Besides(files: map<string, File>, tmp: string, expected: map<string, File>) {
    files - {tmp} == expected
  }

  lemma OwnFile(files: map<string, File>, path: string)
    ensures WithFile(files, path, if path in files then Some(files[path]) else None) == files
  {
  }

  lemma OwnFileKept(files: map<string, File>, tmp: string, path: string, before: map<string, File>, f: Option<File>)
    requires Besides(files, tmp, WithFile(before, path, f)) && tmp != path
    ensures (if path in files then Some(files[path]) else None) == f
    ensures OthersKept(before, files, path)
  {
    var expected := WithFile(before, path, f);
    assert path in files <==> path in expected;
    forall p | p in before && p != path
      ensures p in files && files[p] == before[p]
    {
      assert p in expected && expected[p] == before[p];
    }
  }

  lemma AtMost(added: set<string>, t: string, u: string)
    requires added <= {t, u}
    ensures |added| <= if t == u then 1 else 2
  {
    SubsetIsNoLarger(added, {t, u});
  }

  lemma OneTemporary(files: map<string, File>, tmp: string, path: string, before: map<string, File>, f: Option<File>)
    requires Besides(files, tmp, WithFile(before, path, f)) && (f.Some? ==> path in before)
    ensures files.Keys - before.Keys <= {tmp}
  {
    forall p | p in files.Keys - before.Keys
      ensures p == tmp
    {
      assert p != tmp ==> p in WithFile(before, path, f);
    }
  }

  /** The two lemmas for a whole operation. */
  lemma AfterBatch(files: map<string, File>, tmp: string, path: string, before: map<string, File>, f: Option<File>)
    requires Besides(files, tmp, WithFile(before, path, f)) && (f.Some? ==> path in before)
    requires tmp != path && path + TEMPORARY <= tmp
    ensures OthersKept(before, files, path) && OnlyTemporaries(before, files, path, 1)
    ensures files.Keys - before.Keys <= {tmp}
  {
    OwnFileKept(files, tmp, path, before, f);
    OneTemporary(files, tmp, path, before, f);
    AtMost(files.Keys - before.Keys, tmp, tmp);
  }

  lemma AfterAppend(files: map<string, File>, path: string, before: map<string, File>, f: Option<File>)
    requires files == WithFile(before, path, f) && (f.Some? ==> path in before)
    ensures OthersKept(before, files, path) && OnlyTemporaries(before, files, path, 0)
  {
    assert files.Keys - before.Keys == {};
  }

  lemma TwoTemporaries(a: map<string, File>, b: map<string, File>, c: map<string, File>, path: string,
                       tmp: string, tmp2: string)
    requires b.Keys - a.Keys <= {tmp} && c.Keys - b.Keys <= {tmp2}
    requires path + TEMPORARY <= tmp && path + TEMPORARY <= tmp2
    ensures OnlyTemporaries(a, c, path, 2)
  {
    var added := c.Keys - a.Keys;
    assert added <= (c.Keys - b.Keys) + (b.Keys - a.Keys);
    AtMost(added, tmp, tmp2);
  }

  lemma OnlyTheTemporary(a: map<string, File>, b: map<string, File>, tmp: string, path: string)
    requires a - {tmp} == b - {tmp} && path != tmp && path in a
    ensures path in b && b[path] == a[path]
  {
    assert path in a - {tmp} && (a - {tmp})[path] == a[path];
    assert path in b - {tmp} && (b - {tmp})[path] == b[path];
  }

  /** What the rename does to the files around the temporary one. */
  lemma SwappedFiles(before: map<string, File>, files: map<string, File>, tmp: string, path: string)
    requires Besides(files, tmp, before) && tmp in files && tmp !in before && path in before
    ensures Besides((files - {tmp})[path := files[tmp]], tmp, before[path := files[tmp]])
    ensures Besides(files - {path}, tmp, before - {path})
    ensures path in files && files[path] == before[path]
  {
    assert path in files - {tmp};
  }

  class InfraredRemote {
    var names: seq<string>
    var path: string
    const storage: Storage

    ghost function View(): World
      reads this, storage
    {
      World(path, names, storage.files)
    }

    ghost function Col(): Column
      reads this, storage
    {
      ColumnOf(View())
    }

    constructor (storage: Storage)
      ensures names == [] && path == "" && this.storage == storage
    {
      names, path := [], "";
      this.storage := storage;
    }

    /** Reads the name column. A name that cannot be read ends the loop like the end of the file does. */
    method Load(p: string, io: LoadIo) returns (error: Error)
      modifies this
      ensures error == NoError <==> Loadable(storage.files, p, io)
      ensures View() == if error == NoError then World(p, LoadColumn(storage.files[p], io).names, storage.files)
                        else old(View())
      ensures error != NoError && io.open && p in storage.files && io.header ==>
        error == if storage.files[p].header == FILE_HEADER then WrongFileVersion else WrongFileType
      ensures !(io.open && p in storage.files && io.header) ==> error == FileOperationFailed
    {
      var isOpen := storage.OpenExisting(p, io.open);
      if !isOpen || !io.header {
        return FileOperationFailed;
      }
      var header, version := storage.files[p].header, storage.files[p].version;
      if header == LIBRARY_HEADER {
        return WrongFileType;
      }
      if header != FILE_HEADER {
        return WrongFileType;
      }
      if version != FILE_VERSION {
        return WrongFileVersion;
      }
      path := p;
      names := [];
      ghost var rs := storage.files[p].records;
      var ok, r := storage.ReadSignal(p, 0, io.read(0));
      while ok
        invariant |names| <= |rs| && names == Names(rs[..|names|]) && path == p
        invariant Readable(|rs|, io.read, 0) == Readable(|rs|, io.read, |names|)
        invariant ok <==> |names| < |rs| && io.read(|names|)
        invariant ok ==> r == rs[|names|]
        decreases |rs| - |names|
      {
        assert rs[..|names| + 1] == rs[..|names|] + [r];
        NamesAppend(rs[..|names|], r);
        names := names + [r.name];
        ok, r := storage.ReadSignal(p, |names|, io.read(|names|));
      }
      return NoError;
    }

    /** Reads one signal. */
    method LoadSignal(index: nat, io: FetchIo) returns (error: Error, signal: Signal)
      ensures match FetchSignal(Col(), index, io)
        case Some(s) => error == NoError && signal == s
        case None => error == if io.open && path in storage.files then SignalFailed(0) else FileOperationFailed
    {
      signal := [];
      var isOpen := storage.OpenExisting(path, io.open);
      if !isOpen {
        return FileOperationFailed, signal;
      }
      var ok, r := storage.ReadSignal(path, index, io.read);
      if !ok {
        return SignalFailed(0), signal;
      }
      return NoError, r.signal;
    }

    /** Adds a signal at the end of the file and its name at the end of the index. */
    method AppendSignal(signal: Signal, name: string, io: AppendIo) returns (error: Error)
      modifies this`names, storage
      ensures (Col(), error == NoError) == AppendColumn(old(Col()), name, signal, io)
      ensures error == if !io.open || path !in old(storage.files) then FileOperationFailed
                       else if !io.save then SignalFailed(0) else NoError
      ensures storage.files == WithFile(old(storage.files), path, Col().file)
      ensures path in storage.files ==> path in old(storage.files)
    {
      OwnFile(storage.files, path);
      var isOpen := storage.OpenExisting(path, io.open);
      if !isOpen {
        return FileOperationFailed;
      }
      storage.SaveSignal(path, Record(name, signal), io.save);
      if !io.save {
        return SignalFailed(0);
      }
      names := names + [name];
      return NoError;
    }

    /** Rewrites the file through a temporary one. `tmp` is a name that was found unused. */
    method BatchStart(e: Edit, tmp: string, io: BatchIo) returns (error: Error)
      requires e.index < |names| && tmp !in storage.files && tmp != path
      modifies this`names, storage
      ensures (Col(), error == NoError) == BatchColumn(old(Col()), e, io) && error == BatchError(old(Col()), e, io)
      ensures Besides(storage.files, tmp, WithFile(old(storage.files), path, Col().file))
      ensures path in storage.files ==> path in old(storage.files)
      ensures error == NoError && io.clear ==> tmp !in storage.files
      ensures error != NoError && io.stat && io.remove ==> tmp !in storage.files
    {
      ghost var c, files := Col(), storage.files;
      ErrorOfBatch(c, e, io);
      var bufNames := names;
      error := Rewrite(e, tmp, io);
      if error != NoError {
        var left := io.stat && tmp in storage.files;
        if left {
          storage.Remove(tmp, io.remove);
        }
        names := bufNames;
      }
      OwnFileKept(storage.files, tmp, path, files, BatchColumn(c, e, io).0.file);
    }

    /** The part of a batch before the rollback of the names. */
    method Rewrite(e: Edit, tmp: string, io: BatchIo) returns (error: Error)
      requires e.index < |names| && tmp !in storage.files && tmp != path
      modifies this`names, storage
      ensures error == BatchError(old(Col()), e, io)
      ensures error == NoError ==> names == ApplyNames(e, old(names))
      ensures Besides(storage.files, tmp, WithFile(old(storage.files), path, BatchColumn(old(Col()), e, io).0.file))
      ensures error == NoError && io.clear ==> tmp !in storage.files
    {
      ghost var before := storage.files;
      OwnFile(before, path);
      var isOpen := OpenBoth(tmp, io);
      if !isOpen {
        return FileOperationFailed;
      }
      error := CopyOver(e, tmp, io, before);
    }

    /** Copy, close and rename. */
    method CopyOver(e: Edit, tmp: string, io: BatchIo, ghost before: map<string, File>) returns (error: Error)
      requires e.index < |names| && tmp !in before && tmp != path && io.openIn && io.openOut && io.header
      requires Besides(storage.files, tmp, before) && tmp in storage.files && path in before && path in storage.files
      requires storage.files[tmp] == File(FILE_HEADER, FILE_VERSION, []) && storage.files[path] == before[path]
      modifies this`names, storage
      ensures var c := Column(old(names), Some(before[path]));
        && error == BatchError(c, e, io)
        && Besides(storage.files, tmp, WithFile(before, path, BatchColumn(c, e, io).0.file))
      ensures error == NoError ==> names == ApplyNames(e, old(names))
      ensures error == NoError && io.clear ==> tmp !in storage.files
    {
      OwnFile(before, path);
      ErrorOfBatch(Column(names, Some(before[path])), e, io);
      error := CopySignals(e, tmp, io);
      if error != NoError {
        return;
      }
      if !io.closeOut || !io.closeIn {
        return FileOperationFailed;
      }
      error := Replace(e, tmp, io, before);
    }

    /** Opens the file and an empty copy with its header. */
    method OpenBoth(tmp: string, io: BatchIo) returns (ok: bool)
      requires tmp !in storage.files
      modifies storage
      ensures ok <==> path in storage.files && io.openIn && io.openOut && io.header
      ensures Besides(storage.files, tmp, old(storage.files))
      ensures ok ==> tmp in storage.files && storage.files[tmp] == File(FILE_HEADER, FILE_VERSION, [])
      ensures ok ==> path in old(storage.files) && storage.files[path] == old(storage.files)[path]
    {
      ok := storage.OpenExisting(path, io.openIn);
      if !ok {
        return;
      }
      storage.OpenAlways(tmp, io.openOut);
      if !io.openOut {
        return false;
      }
      storage.WriteHeader(tmp, FILE_HEADER, FILE_VERSION, io.header);
      ok := io.header;
    }

    /** The copy takes the place of the file. */
    method Replace(e: Edit, tmp: string, io: BatchIo, ghost before: map<string, File>) returns (error: Error)
      requires Besides(storage.files, tmp, before) && tmp in storage.files && tmp !in before && path in before
      requires tmp != path
      modifies storage
      ensures error == if io.rename then NoError else FileOperationFailed
      ensures var f := match SwapOf(io.clear, io.rename)
          case Replaced => Some(old(storage.files)[tmp])
          case Lost => None
          case _ => Some(before[path]);
        Besides(storage.files, tmp, WithFile(before, path, f))
      ensures io.rename && io.clear ==> tmp !in storage.files
    {
      SwappedFiles(before, storage.files, tmp, path);
      OwnFile(before, path);
      var status := storage.RenameFile(tmp, path, io.clear, io.rename);
      error := if status == FseOk || status == FseExist then NoError else FileOperationFailed;
    }

    /** The loop of a batch: as many records as there are names are read and passed to the edit. */
    method CopySignals(e: Edit, tmp: string, io: BatchIo) returns (error: Error)
      requires path in storage.files && e.index < |names| && tmp in storage.files && tmp != path
      requires storage.files[tmp].records == []
      modifies this`names, storage
      ensures storage.files - {tmp} == old(storage.files) - {tmp} && tmp in storage.files
      ensures var rs, n := old(storage.files)[path].records, |old(names)|;
        && (error == var stop := Readable(n, Copies(e, io, |rs|), 0);
                     if stop < n then SignalFailed(stop % 256) else NoError)
        && (error == NoError ==>
              && n <= |rs| && names == ApplyNames(e, old(names))
              && storage.files[tmp] == old(storage.files)[tmp].(records := Apply(e, rs[..n])))
    {
      var signalCount := |names|;
      ghost var rs, names0 := storage.files[path].records, names;
      ghost var copies := Copies(e, io, |rs|);
      var k := 0;
      while k < signalCount
        invariant 0 <= k <= signalCount && k <= |rs|
        invariant Copying(e, tmp, k, rs, names0)
        invariant storage.files - {tmp} == old(storage.files) - {tmp}
        invariant storage.files[tmp] == old(storage.files)[tmp].(records := Written(e, rs, k))
        invariant Readable(signalCount, copies, 0) == Readable(signalCount, copies, k)
      {
        var ok := CopySignal(e, tmp, io, k, rs, names0);
        if !ok {
          return SignalFailed(k % 256);
        }
        k := k + 1;
      }
      WrittenAll(e, rs, k);
      return NoError;
    }

    /** The first k records have gone through the edit, and the names with them. */
    ghost predicate Copying(e: Edit, tmp: string, k: nat, rs: seq<Record>, names0: seq<string>)
      reads this, storage
    {
      && e.index < |names0| && k <= |rs| && tmp != path && tmp in storage.files && path in storage.files
      && storage.files[path].records == rs && storage.files[tmp].records == Written(e, rs, k)
      && names == Shown(e, names0, k)
    }

    /** One turn of the loop. */
    method CopySignal(e: Edit, tmp: string, io: BatchIo, k: nat, ghost rs: seq<Record>, ghost names0: seq<string>)
      returns (ok: bool)
      requires Copying(e, tmp, k, rs, names0) && k < |names0|
      modifies this`names, storage
      ensures storage.files - {tmp} == old(storage.files) - {tmp} && tmp in storage.files
      ensures ok <==> k < |rs| && CopiedAt(e, io, k)
      ensures ok ==>
        && Copying(e, tmp, k + 1, rs, names0)
        && storage.files[tmp] == old(storage.files)[tmp].(records := Written(e, rs, k + 1))
    {
      var r;
      ok, r := storage.ReadSignal(path, k, io.read(k));
      if !ok {
        return;
      }
      WrittenStep(e, rs, k);
      ghost var before := storage.files;
      ok := Callback(e, tmp, k, r, io);
      OnlyTheTemporary(before, storage.files, tmp, path);
    }

    /** The three callbacks. */
    method Callback(e: Edit, tmp: string, k: nat, r: Record, io: BatchIo) returns (ok: bool)
      requires tmp in storage.files && k <= |names| && (k == e.index ==> k < |names|)
      modifies this`names, storage
      ensures tmp in storage.files && storage.files - {tmp} == old(storage.files) - {tmp}
      ensures ok <==> SavedAt(e, io, k)
      ensures ok ==> names == if k == e.index then ApplyNames(e, old(names)) else old(names)
      ensures ok ==> storage.files[tmp] == old(storage.files)[tmp].(records := old(storage.files)[tmp].records +
        if k != e.index then [r]
        else match e
             case Insert(_, name, signal) => [Record(name, signal), r]
             case Rename(_, name) => [Record(name, r.signal)]
             case Delete(_) => [])
    {
      ok := true;
      match e {
        case Insert(index, name, signal) =>
          if k == index {
            storage.SaveSignal(tmp, Record(name, signal), io.saveNew);
            if !io.saveNew {
              return false;
            }
            names := names[..index] + [name] + names[index..];
          }
          storage.SaveSignal(tmp, r, io.save(k));
          ok := io.save(k);
        case Rename(index, name) =>
          var signalName := r.name;
          if k == index {
            signalName := name;
            names := names[k := name];
          }
          storage.SaveSignal(tmp, Record(signalName, r.signal), io.save(k));
          ok := io.save(k);
        case Delete(index) =>
          if k == index {
            names := names[..k] + names[k + 1..];
          } else {
            storage.SaveSignal(tmp, r, io.save(k));
            ok := io.save(k);
          }
      }
    }

    // ---------------------------------------------------------------- the public edits

    /** An index past the end appends. */
    method InsertSignal(signal: Signal, name: string, index: nat, tmp: string, io: BatchIo, append: AppendIo)
      returns (error: Error)
      requires tmp !in storage.files && tmp != path
      modifies this`names, storage
      ensures (Col(), error == NoError) == InsertColumn(old(Col()), name, signal, index, io, append)
      ensures index < |old(names)| ==> error == BatchError(old(Col()), Insert(index, name, signal), io)
      ensures Besides(storage.files, tmp, WithFile(old(storage.files), path, Col().file))
      ensures path in storage.files ==> path in old(storage.files)
    {
      if index >= |names| {
        error := AppendSignal(signal, name, append);
        assert storage.files - {tmp} == storage.files;
        return;
      }
      error := BatchStart(Insert(index, name, signal), tmp, io);
    }

    method RenameSignal(index: nat, newName: string, tmp: string, io: BatchIo) returns (error: Error)
      requires index < |names| && tmp !in storage.files && tmp != path
      modifies this`names, storage
      ensures (Col(), error == NoError) == BatchColumn(old(Col()), Rename(index, newName), io)
      ensures error == BatchError(old(Col()), Rename(index, newName), io)
      ensures Besides(storage.files, tmp, WithFile(old(storage.files), path, Col().file))
      ensures path in storage.files ==> path in old(storage.files)
    {
      error := BatchStart(Rename(index, newName), tmp, io);
    }

    method DeleteSignal(index: nat, tmp: string, io: BatchIo) returns (error: Error)
      requires index < |names| && tmp !in storage.files && tmp != path
      modifies this`names, storage
      ensures (Col(), error == NoError) == BatchColumn(old(Col()), Delete(index), io)
      ensures error == BatchError(old(Col()), Delete(index), io)
      ensures Besides(storage.files, tmp, WithFile(old(storage.files), path, Col().file))
      ensures path in storage.files ==> path in old(storage.files)
    {
      error := BatchStart(Delete(index), tmp, io);
    }

    /** Delete, then insert. */
    method MoveSignal(index: nat, newIndex: nat, io: MoveIo) returns (error: Error)
      requires index < |names| && newIndex < |names|
      modifies this`names, storage
      ensures (Col(), error == NoError) == MoveColumn(old(Col()), index, newIndex, io)
      ensures OthersKept(old(storage.files), storage.files, path)
      ensures OnlyTemporaries(old(storage.files), storage.files, path, 2)
    {
      error := NoError;
      if index == newIndex {
        return;
      }
      var signalName := names[index];
      var signal;
      error, signal := LoadSignal(index, io.fetch);
      if error != NoError {
        return;
      }
      var tmp := UnusedName();
      ghost var before := storage.files;
      error := DeleteSignal(index, tmp, io.delete);
      AfterBatch(storage.files, tmp, path, before, Col().file);
      if error != NoError {
        return;
      }
      var tmp2 := UnusedName();
      ghost var between := storage.files;
      error := InsertSignal(signal, signalName, newIndex, tmp2, io.insert, io.append);
      AfterBatch(storage.files, tmp2, path, between, Col().file);
      TwoTemporaries(before, between, storage.files, path, tmp, tmp2);
    }

    /** A name not in use, found by probing. */
    method UnusedName() returns (tmp: string)
      ensures tmp !in storage.files && tmp != path && path + TEMPORARY <= tmp
    {
      tmp := path + TEMPORARY + ".swp";
      while tmp in storage.files
        invariant path + TEMPORARY <= tmp
        decreases |LongNames(storage.files, |tmp|)|
      {
        assert tmp in LongNames(storage.files, |tmp|) && tmp !in LongNames(storage.files, |tmp| + 1);
        SubsetIsSmaller(LongNames(storage.files, |tmp| + 1), LongNames(storage.files, |tmp|));
        tmp := tmp + "0";
      }
    }

    /** Every run, to its end, whatever storage does at every call: the worlds it goes through. */
    method Run(ops: seq<Operation>) returns (trace: seq<World>)
      modifies this, storage
      ensures Trace(trace, ops) && trace[0] == old(View()) && trace[|ops|] == View()
    {
      trace := [World(path, names, storage.files)];
      var k := 0;
      while k < |ops|
        invariant 0 <= k <= |ops| && |trace| == k + 1 && trace[0] == old(View()) && trace[k] == View()
        invariant forall i :: 0 <= i < k ==> Follows(trace[i], ops[i], trace[i + 1])
      {
        Perform(ops[k]);
        trace := trace + [World(path, names, storage.files)];
        k := k + 1;
      }
    }

    method Perform(op: Operation)
      modifies this, storage
      ensures Follows(old(View()), op, View())
    {
      var count := |names|;
      match op {
        case OpLoad(p, io) =>
          var _ := Load(p, io);
        case OpAppend(name, signal, io) =>
          ghost var before := storage.files;
          var _ := AppendSignal(signal, name, io);
          AfterAppend(storage.files, path, before, Col().file);
        case OpMove(index, newIndex, io) =>
          if index < count && newIndex < count {
            var _ := MoveSignal(index, newIndex, io);
          }
        case _ =>
          if Callable(op, count) {
            PerformBatch(op);
          }
      }
    }

    /** The operations that run one batch at most. */
    method PerformBatch(op: Operation)
      requires (op.OpInsert? || op.OpRename? || op.OpDelete?) && Callable(op, |names|)
      modifies this`names, storage
      ensures Col() == Next(old(Col()), op)
      ensures OthersKept(old(storage.files), storage.files, path)
      ensures OnlyTemporaries(old(storage.files), storage.files, path, 1)
    {
      var tmp := UnusedName();
      ghost var before := storage.files;
      match op {
        case OpInsert(name, signal, index, io, append) =>
          var _ := InsertSignal(signal, name, index, tmp, io, append);
        case OpRename(index, name, io) =>
          var _ := RenameSignal(index, name, tmp, io);
        case OpDelete(index, io) =>
          var _ := DeleteSignal(index, tmp, io);
      }
      AfterBatch(storage.files, tmp, path, before, Col().file);
    }
  }

  lemma WrittenAll(e: Edit, rs: seq<Record>, n: nat)
    requires e.index < n <= |rs|
    ensures Written(e, rs, n) == Apply(e, rs[..n])
  {
  }

  ghost function LongNames(files: map<string, File>, n: nat): set<string> {
    set k | k in files && |k| >= n
  }

  lemma SubsetIsSmaller<T>(a: set<T>, b: set<T>)
    requires a < b
    ensures |a| < |b|
  {
    var x :| x in b && x !in a;
    assert a <= b - {x};
    SubsetIsNoLarger(a, b - {x});
  }

  lemma {:induction false} SubsetIsNoLarger<T>(a: set<T>, b: set<T>)
    requires a <= b
    ensures |a| <= |b|
    decreases a
  {
    if x :| x in a {
      SubsetIsNoLarger(a - {x}, b - {x});
    }
  }
}
