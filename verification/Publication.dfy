/** Publishing parts: any number of concurrent inserts by one writer, each reserving an
    id, filling a temporary directory and renaming it, with crashes and reopening at any
    point. A reader sees only directories named part_NNNNN. */
module Publication {

  /** Column files are numbered from 0; the zone map's number is the number of files. */
  type FileNo = int

  type Token = int

  /** A file being written, or written, by an insert */
  datatype Content = Partial(writer: Token) | Whole(writer: Token)

  type Dir = map<FileNo, Content>

  datatype DirName = Tmp(id: nat) | Part(id: nat)

  /** An insert in progress: its id is reserved; its directory exists and some column
      files are finished; its zone map is being written; or it is ready to be renamed. */
  datatype Phase = Reserved | Writing(finished: set<FileNo>) | Zoning | Ready

  datatype Insert = Insert(id: nat, phase: Phase)

  /** The directories on disk and, while a writer is open, its id counter and inserts.
      `used` and `published` record what has happened. */
  datatype State = State(dirs: map<DirName, Dir>, open: bool, nextId: nat, inserts: map<Token, Insert>,
                         used: set<Token>, published: map<Token, nat>)

  /** All column files and the zone map, written by one insert */
  ghost predicate CompleteBy(n: nat, dir: Dir, t: Token) {
    forall f :: 0 <= f <= n ==> f in dir && dir[f] == Whole(t)
  }

  ghost predicate Visible(s: State, id: nat) {
    Part(id) in s.dirs
  }

  // ---- Opening a writer ----

  /** A directory entry: part_<number>, or any other name */
  datatype Entry = PartEntry(id: nat) | OtherEntry

  /** One more than the largest id among the part_ entries, or 0 */
  method ScanNextPartId(entries: seq<Entry>) returns (next: nat)
    ensures forall i :: 0 <= i < |entries| && entries[i].PartEntry? ==> entries[i].id < next
    ensures next > 0 ==> PartEntry(next - 1) in entries
  {
    var maxId: int := -1;
    for i := 0 to |entries|
      invariant maxId >= -1 && forall j :: 0 <= j < i && entries[j].PartEntry? ==> entries[j].id <= maxId
      invariant maxId >= 0 ==> PartEntry(maxId) in entries[..i]
    {
      if entries[i].PartEntry? && entries[i].id > maxId {
        maxId := entries[i].id;
      }
      assert entries[..i + 1] == entries[..i] + [entries[i]];
    }
    assert entries[..|entries|] == entries;
    next := maxId + 1;
  }

  /** The counter a scan of the table directory gives */
  ghost predicate IsNextId(dirs: map<DirName, Dir>, next: nat) {
    && (forall id: nat :: Part(id) in dirs ==> id < next)
    && (next > 0 ==> Part(next - 1) in dirs)
  }

  // ---- Steps ----

  ghost predicate Active(s: State, t: Token, phase: Phase) {
    s.open && t in s.inserts && s.inserts[t].phase == phase
  }

  function WithPhase(s: State, t: Token, phase: Phase): map<Token, Insert>
    requires t in s.inserts
  {
    s.inserts[t := s.inserts[t].(phase := phase)]
  }

  function WithFile(s: State, id: nat, f: FileNo, c: Content): map<DirName, Dir>
    requires Tmp(id) in s.dirs
  {
    var dir: Dir := s.dirs[Tmp(id)][f := c];
    s.dirs[Tmp(id) := dir]
  }

  /** Reopening after a crash, or opening for the first time */
  ghost predicate Open(s: State, s': State) {
    !s.open && exists next :: IsNextId(s.dirs, next) && s' == s.(open := true, nextId := next)
  }

  /** The process stops; files keep whatever was written. */
  ghost predicate Crash(s: State, s': State) {
    s.open && s' == s.(open := false, inserts := map[])
  }

  /** fetch_add on the id counter */
  ghost predicate Reserve(s: State, s': State, t: Token) {
    && s.open && t !in s.used
    && s' == s.(nextId := s.nextId + 1, inserts := s.inserts[t := Insert(s.nextId, Reserved)], used := s.used + {t})
  }

  /** create_dir_all: a directory left by a crash is taken over with its files. */
  ghost predicate MakeDir(s: State, s': State, t: Token) {
    && Active(s, t, Reserved)
    && var tmp := Tmp(s.inserts[t].id);
       s' == s.(dirs := if tmp in s.dirs then s.dirs else s.dirs[tmp := map[]], inserts := WithPhase(s, t, Writing({})))
  }

  /** File::create truncates; column files are written in any order. */
  ghost predicate StartFile(n: nat, s: State, s': State, t: Token, f: FileNo) {
    && s.open && t in s.inserts && s.inserts[t].phase.Writing? && Tmp(s.inserts[t].id) in s.dirs
    && 0 <= f < n && f !in s.inserts[t].phase.finished
    && s' == s.(dirs := WithFile(s, s.inserts[t].id, f, Partial(t)))
  }

  ghost predicate FinishFile(n: nat, s: State, s': State, t: Token, f: FileNo) {
    && s.open && t in s.inserts && s.inserts[t].phase.Writing? && Tmp(s.inserts[t].id) in s.dirs
    && 0 <= f < n && f in s.dirs[Tmp(s.inserts[t].id)] && s.dirs[Tmp(s.inserts[t].id)][f] == Partial(t)
    && s' == s.(dirs := WithFile(s, s.inserts[t].id, f, Whole(t)),
                inserts := WithPhase(s, t, Writing(s.inserts[t].phase.finished + {f})))
  }

  /** The zone map is begun only when every column is written. */
  ghost predicate StartZone(n: nat, s: State, s': State, t: Token) {
    && s.open && t in s.inserts && s.inserts[t].phase.Writing? && Tmp(s.inserts[t].id) in s.dirs
    && (forall f :: 0 <= f < n ==> f in s.inserts[t].phase.finished)
    && s' == s.(dirs := WithFile(s, s.inserts[t].id, n, Partial(t)), inserts := WithPhase(s, t, Zoning))
  }

  ghost predicate FinishZone(n: nat, s: State, s': State, t: Token) {
    && Active(s, t, Zoning) && Tmp(s.inserts[t].id) in s.dirs
    && s' == s.(dirs := WithFile(s, s.inserts[t].id, n, Whole(t)), inserts := WithPhase(s, t, Ready))
  }

  /** Any error while writing removes the temporary directory. */
  ghost predicate Fail(s: State, s': State, t: Token) {
    && s.open && t in s.inserts && !s.inserts[t].phase.Reserved? && !s.inserts[t].phase.Ready?
    && s' == s.(dirs := s.dirs - {Tmp(s.inserts[t].id)}, inserts := s.inserts - {t})
  }

  /** The rename, which fails and leaves the directory if the name is taken */
  ghost predicate Rename(s: State, s': State, t: Token) {
    && Active(s, t, Ready) && Tmp(s.inserts[t].id) in s.dirs
    && var id := s.inserts[t].id;
       if Part(id) in s.dirs then s' == s.(inserts := s.inserts - {t})
       else s' == s.(dirs := (s.dirs - {Tmp(id)})[Part(id) := s.dirs[Tmp(id)]], inserts := s.inserts - {t},
                     published := s.published[t := id])
  }

  /** A step within an insert's temporary directory */
  ghost predicate WritingStep(n: nat, s: State, s': State, t: Token, f: FileNo) {
    || MakeDir(s, s', t) || StartFile(n, s, s', t, f) || FinishFile(n, s, s', t, f)
    || StartZone(n, s, s', t) || FinishZone(n, s, s', t) || Fail(s, s', t)
  }

  ghost predicate Step(n: nat, s: State, s': State) {
    || Open(s, s') || Crash(s, s')
    || (exists t :: Reserve(s, s', t))
    || (exists t, f :: WritingStep(n, s, s', t, f))
    || (exists t :: Rename(s, s', t))
  }

  // ---- What every state keeps ----

  /** What an insert in progress has in its temporary directory */
  ghost predicate Progressing(n: nat, s: State, t: Token)
    requires t in s.inserts
  {
    var i := s.inserts[t];
    && i.id < s.nextId && !Visible(s, i.id) && t in s.used && t !in s.published
    && (!i.phase.Reserved? ==>
          && Tmp(i.id) in s.dirs
          && var dir := s.dirs[Tmp(i.id)];
             match i.phase
             case Reserved => true
             case Writing(finished) => forall f :: f in finished ==> 0 <= f < n && f in dir && dir[f] == Whole(t)
             case Zoning => forall f :: 0 <= f < n ==> f in dir && dir[f] == Whole(t)
             case Ready => CompleteBy(n, dir, t))
  }

  ghost predicate Inv(n: nat, s: State) {
    && (!s.open ==> s.inserts == map[])
    && (s.open ==> forall id: nat :: Part(id) in s.dirs ==> id < s.nextId)
    && (forall t :: t in s.inserts ==> Progressing(n, s, t))
    && (forall t, u :: t in s.inserts && u in s.inserts && t != u ==> s.inserts[t].id != s.inserts[u].id)
    // Every published insert still has its own complete part, and there is no other part.
    && (forall t :: t in s.published ==> t in s.used && Part(s.published[t]) in s.dirs && CompleteBy(n, s.dirs[Part(s.published[t])], t))
    && (forall t, u :: t in s.published && u in s.published && t != u ==> s.published[t] != s.published[u])
    && (forall id: nat :: Part(id) in s.dirs ==> exists t :: t in s.published && s.published[t] == id)
  }

  ghost predicate Initial(s: State) {
    s == State(map[], false, 0, map[], {}, map[])
  }

  lemma InitialHolds(n: nat, s: State)
    requires Initial(s)
    ensures Inv(n, s)
  {
  }

  lemma OpenKeeps(n: nat, s: State, s': State)
    requires Inv(n, s) && (Open(s, s') || Crash(s, s'))
    ensures Inv(n, s')
  {
  }

  lemma ReserveKeeps(n: nat, s: State, s': State, t: Token)
    requires Inv(n, s) && Reserve(s, s', t)
    ensures Inv(n, s')
  {
    hide CompleteBy;
    forall u | u in s'.inserts ensures Progressing(n, s', u) {
      if u != t { assert Progressing(n, s, u); }
    }
    forall u, v | u in s'.inserts && v in s'.inserts && u != v ensures s'.inserts[u].id != s'.inserts[v].id {
      assert u != t ==> Progressing(n, s, u);
      assert v != t ==> Progressing(n, s, v);
    }
  }

  /** Nothing changes but one insert and its temporary directory. */
  ghost predicate OnlyOwn(s: State, s': State, t: Token)
    requires t in s.inserts
  {
    && s.open && s'.open && s' == s.(dirs := s'.dirs, inserts := s'.inserts)
    && (forall name :: name != Tmp(s.inserts[t].id) ==> (name in s'.dirs <==> name in s.dirs))
    && (forall name :: name != Tmp(s.inserts[t].id) && name in s.dirs ==> s'.dirs[name] == s.dirs[name])
    && (s'.inserts == s.inserts - {t}
        || (t in s'.inserts && s'.inserts == s.inserts[t := s'.inserts[t]] && s'.inserts[t].id == s.inserts[t].id))
  }

  /** Changing one insert's temporary directory disturbs no other insert and no part. */
  lemma OthersKeep(n: nat, s: State, s': State, t: Token)
    requires Inv(n, s) && t in s.inserts && OnlyOwn(s, s', t)
    requires t in s'.inserts ==> Progressing(n, s', t)
    ensures Inv(n, s')
  {
    hide CompleteBy;
    forall u | u in s'.inserts ensures Progressing(n, s', u) {
      if u != t { assert Progressing(n, s, u); }
    }
    forall id | Part(id) in s'.dirs ensures exists u :: u in s'.published && s'.published[u] == id {
      assert Part(id) in s.dirs;
    }
  }

  lemma WritingIsOwn(n: nat, s: State, s': State, t: Token, f: FileNo)
    requires WritingStep(n, s, s', t, f)
    ensures t in s.inserts && OnlyOwn(s, s', t)
  {
  }

  lemma WritingProgresses(n: nat, s: State, s': State, t: Token, f: FileNo)
    requires WritingStep(n, s, s', t, f) && t in s'.inserts && Progressing(n, s, t)
    ensures Progressing(n, s', t)
  {
  }

  lemma WritingKeeps(n: nat, s: State, s': State, t: Token, f: FileNo)
    requires Inv(n, s) && WritingStep(n, s, s', t, f)
    ensures Inv(n, s')
  {
    WritingIsOwn(n, s, s', t, f);
    assert Progressing(n, s, t);
    hide *;
    if t in s'.inserts {
      WritingProgresses(n, s, s', t, f);
    }
    OthersKeep(n, s, s', t);
  }

  /** The rename always finds its name free, and publishes a complete part. */
  lemma RenameKeeps(n: nat, s: State, s': State, t: Token)
    requires Inv(n, s) && Rename(s, s', t)
    ensures !Visible(s, s.inserts[t].id) && s'.published == s.published[t := s.inserts[t].id]
    ensures Inv(n, s')
  {
    var id := s.inserts[t].id;
    assert Progressing(n, s, t);
    hide CompleteBy;
    forall u | u in s'.inserts ensures Progressing(n, s', u) {
      assert Progressing(n, s, u);
    }
    forall u | u in s'.published
      ensures u in s'.used && Part(s'.published[u]) in s'.dirs && CompleteBy(n, s'.dirs[Part(s'.published[u])], u)
    {
      if u != t { assert Part(s.published[u]) in s.dirs; }
    }
    forall i | Part(i) in s'.dirs ensures exists u :: u in s'.published && s'.published[u] == i {
      if i == id {
        assert s'.published[t] == i;
      } else {
        assert Part(i) in s.dirs;
        var u :| u in s.published && s.published[u] == i;
        assert u in s'.published && s'.published[u] == i;
      }
    }
  }

  lemma StepKeeps(n: nat, s: State, s': State)
    requires Inv(n, s) && Step(n, s, s')
    ensures Inv(n, s')
  {
    hide Inv, WritingStep;
    if Open(s, s') || Crash(s, s') {
      OpenKeeps(n, s, s');
    } else if exists t :: Reserve(s, s', t) {
      var t :| Reserve(s, s', t);
      ReserveKeeps(n, s, s', t);
    } else if exists t :: Rename(s, s', t) {
      var t :| Rename(s, s', t);
      RenameKeeps(n, s, s', t);
    } else {
      var t: Token, f: FileNo :| WritingStep(n, s, s', t, f);
      WritingKeeps(n, s, s', t, f);
    }
  }

  // ---- Every run ----

  ghost predicate Run(n: nat, run: seq<State>) {
    && |run| > 0 && Initial(run[0])
    && forall i :: 0 < i < |run| ==> Step(n, run[i - 1], run[i])
  }

  lemma {:induction false} RunKeeps(n: nat, run: seq<State>, k: nat)
    requires Run(n, run) && k < |run|
    ensures Inv(n, run[k])
  {
    if k == 0 {
      InitialHolds(n, run[0]);
    } else {
      RunKeeps(n, run, k - 1);
      StepKeeps(n, run[k - 1], run[k]);
    }
  }

  /** In every state of every run, a visible directory is complete, with every file
      written by the one insert it was published for. */
  lemma VisiblePartsAreComplete(n: nat, run: seq<State>, k: nat, id: nat)
    requires Run(n, run) && k < |run| && Visible(run[k], id)
    ensures exists t :: t in run[k].published && run[k].published[t] == id && CompleteBy(n, run[k].dirs[Part(id)], t)
  {
    RunKeeps(n, run, k);
    var t :| t in run[k].published && run[k].published[t] == id;
  }

  /** Two inserts never share a part, however many crashes lie between them. */
  lemma PartsAreNotShared(n: nat, run: seq<State>, k: nat, t: Token, u: Token)
    requires Run(n, run) && k < |run| && t in run[k].published && u in run[k].published && t != u
    ensures run[k].published[t] != run[k].published[u]
  {
    RunKeeps(n, run, k);
  }

  lemma StepKeepsPublished(n: nat, s: State, s': State, t: Token)
    requires Inv(n, s) && Step(n, s, s') && t in s.published
    ensures t in s'.published && s'.published[t] == s.published[t]
  {
    if exists u :: Rename(s, s', u) {
      var u :| Rename(s, s', u);
      assert Progressing(n, s, u);
    }
  }

  lemma PublishedIsComplete(n: nat, s: State, t: Token)
    requires Inv(n, s) && t in s.published
    ensures Visible(s, s.published[t]) && CompleteBy(n, s.dirs[Part(s.published[t])], t)
  {
  }

  /** What is published stays published under its id, as it was written. */
  lemma {:induction false} PublishedStays(n: nat, run: seq<State>, k: nat, later: nat, t: Token)
    requires Run(n, run) && k <= later < |run| && t in run[k].published
    ensures t in run[later].published && run[later].published[t] == run[k].published[t]
    ensures Visible(run[later], run[k].published[t]) && CompleteBy(n, run[later].dirs[Part(run[k].published[t])], t)
  {
    hide Inv, Step, CompleteBy;
    if later > k {
      PublishedStays(n, run, k, later - 1, t);
      RunKeeps(n, run, later - 1);
      StepKeepsPublished(n, run[later - 1], run[later], t);
    }
    RunKeeps(n, run, later);
    PublishedIsComplete(n, run[later], t);
  }

  ghost predicate Gone(s: State, t: Token) {
    t in s.used && t !in s.inserts && t !in s.published
  }

  lemma GoneStaysWriting(n: nat, s: State, s': State, t: Token, u: Token, f: FileNo)
    requires WritingStep(n, s, s', u, f) && Gone(s, t)
    ensures Gone(s', t)
  {
    WritingIsOwn(n, s, s', u, f);
    hide WritingStep;
  }

  lemma GoneStays(n: nat, s: State, s': State, t: Token)
    requires Step(n, s, s') && Gone(s, t)
    ensures Gone(s', t)
  {
    hide WritingStep;
    if u, f :| WritingStep(n, s, s', u, f) {
      GoneStaysWriting(n, s, s', t, u, f);
    }
  }

  /** An insert that has failed, or was cut off by a crash, never becomes visible. */
  lemma {:induction false} GoneIsNeverPublished(n: nat, run: seq<State>, k: nat, later: nat, t: Token)
    requires Run(n, run) && k <= later < |run| && Gone(run[k], t)
    ensures Gone(run[later], t)
    ensures forall id :: Visible(run[later], id) ==>
              exists u :: u != t && u in run[later].published && run[later].published[u] == id
  {
    hide Step, Inv, CompleteBy, IsNextId;
    if later > k {
      GoneIsNeverPublished(n, run, k, later - 1, t);
      GoneStays(n, run[later - 1], run[later], t);
    }
    forall id | Visible(run[later], id) ensures exists u :: u != t && u in run[later].published && run[later].published[u] == id {
      VisiblePartsAreComplete(n, run, later, id);
      var u :| u in run[later].published && run[later].published[u] == id;
      assert u != t;
    }
  }

  /** A failing insert takes its temporary directory with it, and nothing else. */
  lemma FailLeavesNothing(n: nat, s: State, s': State, t: Token)
    requires Inv(n, s) && Fail(s, s', t)
    ensures Gone(s', t) && Tmp(s.inserts[t].id) !in s'.dirs && s'.published == s.published
    ensures forall name :: name in s'.dirs <==> name in s.dirs && name != Tmp(s.inserts[t].id)
    ensures forall u :: u in s'.inserts ==> u in s.inserts && s'.inserts[u] == s.inserts[u] && Progressing(n, s', u)
  {
    assert Progressing(n, s, t);
    FailKeeps(n, s, s', t);
  }

  lemma FailKeeps(n: nat, s: State, s': State, t: Token)
    requires Inv(n, s) && Fail(s, s', t)
    ensures Inv(n, s')
  {
    FailIsWriting(n, s, s', t);
    WritingKeeps(n, s, s', t, 0);
  }

  lemma FailIsWriting(n: nat, s: State, s': State, t: Token)
    requires Fail(s, s', t)
    ensures WritingStep(n, s, s', t, 0)
  {
  }

  // ---- Every insert can get there ----

  /** A step of the one insert `t` */
  ghost predicate StepOf(n: nat, s: State, s': State, t: Token) {
    Reserve(s, s', t) || (exists f :: WritingStep(n, s, s', t, f)) || Rename(s, s', t)
  }

  /** `t` is published with all its files, and is all that has been published. */
  ghost predicate PublishedIn(n: nat, s: State, s': State, t: Token) {
    && s'.open && t !in s.published && t in s'.published && s'.published == s.published[t := s'.published[t]]
    && !Visible(s, s'.published[t]) && Visible(s', s'.published[t]) && CompleteBy(n, s'.dirs[Part(s'.published[t])], t)
    && s'.inserts == s.inserts - {t}
  }

  /** On the way there only `t` itself has moved on, below its temporary directory. */
  ghost predicate OnTheWay(s: State, s': State, t: Token) {
    && s'.open && t in s'.inserts && s'.published == s.published && s'.inserts - {t} == s.inserts - {t}
    && (forall id :: Visible(s', id) <==> Visible(s, id))
  }

  /** How many of the files from 0 to n - 1 are not finished */
  ghost function FilesLeft(n: nat, finished: set<FileNo>): (left: nat)
    ensures left <= n
  {
    if n == 0 then 0 else FilesLeft(n - 1, finished) + if n - 1 in finished then 0 else 1
  }

  lemma {:induction false} FinishedLeavesLess(n: nat, finished: set<FileNo>, f: FileNo)
    requires 0 <= f && f !in finished
    ensures FilesLeft(n, finished + {f}) == FilesLeft(n, finished) - if f < n then 1 else 0
  {
    if n > 0 { FinishedLeavesLess(n - 1, finished, f); }
  }

  /** `t` is writing column file `f`. */
  ghost predicate Started(n: nat, s: State, t: Token, f: FileNo)
    requires t in s.inserts && s.inserts[t].phase.Writing?
  {
    && 0 <= f < n && f !in s.inserts[t].phase.finished && Tmp(s.inserts[t].id) in s.dirs
    && f in s.dirs[Tmp(s.inserts[t].id)] && s.dirs[Tmp(s.inserts[t].id)][f] == Partial(t)
  }

  /** A bound on the steps that `t` still has to take before its rename */
  ghost function Left(n: nat, s: State, t: Token): nat
    requires t in s.inserts
  {
    match s.inserts[t].phase
    case Reserved => 2 * n + 4
    case Writing(finished) => 2 * FilesLeft(n, finished) + if exists f :: Started(n, s, t, f) then 2 else 3
    case Zoning => 1
    case Ready => 0
  }

  lemma StepOfIsStep(n: nat, s: State, s': State, t: Token)
    requires StepOf(n, s, s', t)
    ensures Step(n, s, s')
  {
    hide WritingStep, Reserve, Rename;
  }

  lemma WritingIsStepOf(n: nat, s: State, s': State, t: Token, f: FileNo)
    requires Inv(n, s) && WritingStep(n, s, s', t, f)
    ensures StepOf(n, s, s', t) && Inv(n, s')
  {
    WritingKeeps(n, s, s', t, f);
    hide WritingStep, Inv;
  }

  /** The directory is made, or one that a crash has left is taken over. */
  lemma ReservedMovesOn(n: nat, s: State, t: Token) returns (s': State)
    requires Inv(n, s) && Active(s, t, Reserved)
    ensures StepOf(n, s, s', t) && Inv(n, s') && OnTheWay(s, s', t) && Left(n, s', t) < Left(n, s, t)
  {
    var tmp, empty: Dir := Tmp(s.inserts[t].id), map[];
    s' := s.(dirs := if tmp in s.dirs then s.dirs else s.dirs[tmp := empty], inserts := WithPhase(s, t, Writing({})));
    assert MakeDir(s, s', t) && OnTheWay(s, s', t);
    assert s'.inserts[t].phase == Writing({});
    hide Inv, MakeDir;
    MakeDirIsWriting(n, s, s', t);
    WritingIsStepOf(n, s, s', t, 0);
  }

  lemma MakeDirIsWriting(n: nat, s: State, s': State, t: Token)
    requires MakeDir(s, s', t)
    ensures WritingStep(n, s, s', t, 0)
  {
  }

  lemma FileIsBegun(n: nat, s: State, t: Token, f: FileNo) returns (s': State)
    requires Inv(n, s) && s.open && t in s.inserts && s.inserts[t].phase.Writing?
    requires 0 <= f < n && f !in s.inserts[t].phase.finished && !exists g :: Started(n, s, t, g)
    ensures StepOf(n, s, s', t) && Inv(n, s') && OnTheWay(s, s', t) && Left(n, s', t) < Left(n, s, t)
  {
    assert Progressing(n, s, t);
    s' := s.(dirs := WithFile(s, s.inserts[t].id, f, Partial(t)));
    assert StartFile(n, s, s', t, f) && OnTheWay(s, s', t);
    assert Started(n, s', t, f);
    hide Inv;
    WritingIsStepOf(n, s, s', t, f);
  }

  lemma FileIsFinished(n: nat, s: State, t: Token, f: FileNo) returns (s': State)
    requires Inv(n, s) && s.open && t in s.inserts && s.inserts[t].phase.Writing? && Started(n, s, t, f)
    ensures StepOf(n, s, s', t) && Inv(n, s') && OnTheWay(s, s', t) && Left(n, s', t) < Left(n, s, t)
  {
    var finished := s.inserts[t].phase.finished;
    s' := s.(dirs := WithFile(s, s.inserts[t].id, f, Whole(t)), inserts := WithPhase(s, t, Writing(finished + {f})));
    assert FinishFile(n, s, s', t, f) && OnTheWay(s, s', t);
    FinishedLeavesLess(n, finished, f);
    hide Inv;
    WritingIsStepOf(n, s, s', t, f);
  }

  lemma ZoneIsBegun(n: nat, s: State, t: Token) returns (s': State)
    requires Inv(n, s) && s.open && t in s.inserts && s.inserts[t].phase.Writing?
    requires forall f :: 0 <= f < n ==> f in s.inserts[t].phase.finished
    ensures StepOf(n, s, s', t) && Inv(n, s') && OnTheWay(s, s', t) && Left(n, s', t) < Left(n, s, t)
  {
    assert Progressing(n, s, t);
    s' := s.(dirs := WithFile(s, s.inserts[t].id, n, Partial(t)), inserts := WithPhase(s, t, Zoning));
    assert StartZone(n, s, s', t) && OnTheWay(s, s', t);
    hide Inv;
    WritingIsStepOf(n, s, s', t, 0);
  }

  lemma ZoneIsFinished(n: nat, s: State, t: Token) returns (s': State)
    requires Inv(n, s) && Active(s, t, Zoning)
    ensures StepOf(n, s, s', t) && Inv(n, s') && OnTheWay(s, s', t) && Left(n, s', t) < Left(n, s, t)
  {
    assert Progressing(n, s, t);
    s' := s.(dirs := WithFile(s, s.inserts[t].id, n, Whole(t)), inserts := WithPhase(s, t, Ready));
    assert FinishZone(n, s, s', t) && OnTheWay(s, s', t);
    hide Inv;
    WritingIsStepOf(n, s, s', t, 0);
  }

  /** Whatever its phase, an insert can move on by itself. */
  lemma InsertMovesOn(n: nat, s: State, t: Token) returns (s': State)
    requires Inv(n, s) && s.open && t in s.inserts && !s.inserts[t].phase.Ready?
    ensures StepOf(n, s, s', t) && Inv(n, s') && OnTheWay(s, s', t) && Left(n, s', t) < Left(n, s, t)
  {
    hide Inv, StepOf, OnTheWay, Left, Started;
    match s.inserts[t].phase
    case Reserved => s' := ReservedMovesOn(n, s, t);
    case Zoning => s' := ZoneIsFinished(n, s, t);
    case Writing(finished) =>
      if g :| Started(n, s, t, g) {
        s' := FileIsFinished(n, s, t, g);
      } else if f :| 0 <= f < n && f !in finished {
        s' := FileIsBegun(n, s, t, f);
      } else {
        s' := ZoneIsBegun(n, s, t);
      }
  }

  lemma RenamePublishes(n: nat, s: State, t: Token) returns (s': State)
    requires Inv(n, s) && Active(s, t, Ready)
    ensures StepOf(n, s, s', t) && PublishedIn(n, s, s', t)
  {
    assert Progressing(n, s, t);
    var id := s.inserts[t].id;
    s' := s.(dirs := (s.dirs - {Tmp(id)})[Part(id) := s.dirs[Tmp(id)]], inserts := s.inserts - {t}, published := s.published[t := id]);
    assert Rename(s, s', t);
    hide Inv, CompleteBy;
  }

  lemma ReserveBegins(n: nat, s: State, t: Token) returns (s': State)
    requires Inv(n, s) && s.open && t !in s.used
    ensures StepOf(n, s, s', t) && Inv(n, s') && OnTheWay(s, s', t)
    ensures s'.inserts - {t} == s.inserts && t !in s.published
  {
    assert t in s.inserts ==> Progressing(n, s, t);
    s' := s.(nextId := s.nextId + 1, inserts := s.inserts[t := Insert(s.nextId, Reserved)], used := s.used + {t});
    assert Reserve(s, s', t);
    ReserveKeeps(n, s, s', t);
  }

  lemma PublishedThrough(n: nat, s: State, s': State, s'': State, t: Token)
    requires OnTheWay(s, s', t) && PublishedIn(n, s', s'', t)
    ensures PublishedIn(n, s, s'', t)
  {
    hide CompleteBy;
  }

  lemma HistoryExtends(n: nat, history: seq<State>, s': State)
    requires Run(n, history) && Step(n, history[|history| - 1], s')
    ensures Run(n, history + [s'])
  {
    hide Step;
    var more := history + [s'];
    forall i | 0 < i < |more| ensures Step(n, more[i - 1], more[i]) {
      if i < |history| { assert more[i - 1] == history[i - 1] && more[i] == history[i]; }
    }
  }

  /** From its `from`-th state on, the run is one of steps of `t` alone. */
  ghost predicate OnlySteps(n: nat, run: seq<State>, from: nat, t: Token) {
    forall i :: from < i < |run| ==> StepOf(n, run[i - 1], run[i], t)
  }

  /** From every state that a run reaches, an insert in progress can get to its
      publication by its own steps, in whatever phase it is and whatever a crash has left
      under its temporary name. */
  lemma {:induction false} InsertCanPublish(n: nat, history: seq<State>, t: Token) returns (run: seq<State>)
    requires Run(n, history) && history[|history| - 1].open && t in history[|history| - 1].inserts
    ensures Run(n, run) && history < run && OnlySteps(n, run, |history| - 1, t)
    ensures PublishedIn(n, history[|history| - 1], run[|run| - 1], t)
    decreases Left(n, history[|history| - 1], t)
  {
    var k := |history| - 1;
    var s, s' := history[k], history[k];
    RunKeeps(n, history, k);
    hide *;
    if s.inserts[t].phase.Ready? {
      ReadyIsActive(s, t);
      s' := RenamePublishes(n, s, t);
      run := history + [s'];
      StepOfIsStep(n, s, s', t);
      HistoryExtends(n, history, s');
      OneStepOf(n, history, s', t);
    } else {
      s' := InsertMovesOn(n, s, t);
      StepOfIsStep(n, s, s', t);
      HistoryExtends(n, history, s');
      StaysOpen(s, s', t);
      run := InsertCanPublish(n, history + [s'], t);
      PublishedThrough(n, s, s', run[|run| - 1], t);
      StepThenSteps(n, history, s', run, t);
    }
  }

  lemma ReadyIsActive(s: State, t: Token)
    requires s.open && t in s.inserts && s.inserts[t].phase.Ready?
    ensures Active(s, t, Ready)
  {
  }

  lemma StaysOpen(s: State, s': State, t: Token)
    requires OnTheWay(s, s', t)
    ensures s'.open && t in s'.inserts
  {
  }

  lemma OneStepOf(n: nat, history: seq<State>, s': State, t: Token)
    requires history != [] && StepOf(n, history[|history| - 1], s', t)
    ensures OnlySteps(n, history + [s'], |history| - 1, t)
  {
    hide StepOf;
  }

  lemma StepThenSteps(n: nat, history: seq<State>, s': State, run: seq<State>, t: Token)
    requires history != [] && StepOf(n, history[|history| - 1], s', t)
    requires history + [s'] < run && OnlySteps(n, run, |history|, t)
    ensures history < run && OnlySteps(n, run, |history| - 1, t)
  {
    hide StepOf;
    assert run[|history|] == (history + [s'])[|history|] == s';
    assert run[|history| - 1] == (history + [s'])[|history| - 1];
  }

  /** So can an insert that has not begun. */
  lemma NewInsertCanPublish(n: nat, history: seq<State>, t: Token) returns (run: seq<State>)
    requires Run(n, history) && history[|history| - 1].open && t !in history[|history| - 1].used
    ensures Run(n, run) && history < run && OnlySteps(n, run, |history| - 1, t)
    ensures PublishedIn(n, history[|history| - 1], run[|run| - 1], t)
  {
    var s := history[|history| - 1];
    RunKeeps(n, history, |history| - 1);
    hide *;
    var s' := ReserveBegins(n, s, t);
    StepOfIsStep(n, s, s', t);
    HistoryExtends(n, history, s');
    StaysOpen(s, s', t);
    run := InsertCanPublish(n, history + [s'], t);
    PublishedThrough(n, s, s', run[|run| - 1], t);
    StepThenSteps(n, history, s', run, t);
  }

  lemma {:induction false} SomeBound(ids: set<nat>) returns (next: nat)
    ensures (forall id :: id in ids ==> id < next) && (next > 0 ==> next - 1 in ids)
    decreases ids
  {
    next := 0;
    if ids != {} {
      var id :| id in ids;
      var rest := SomeBound(ids - {id});
      next := if rest > id then rest else id + 1;
      forall i | i in ids ensures i < next {
        assert i != id ==> i in ids - {id};
      }
    }
  }

  /** After a crash, or at first, a writer can be opened. */
  lemma WriterCanOpen(n: nat, history: seq<State>) returns (run: seq<State>)
    requires Run(n, history) && !history[|history| - 1].open
    ensures Run(n, run) && |run| == |history| + 1 && history < run && Open(history[|history| - 1], run[|run| - 1])
    ensures run[|run| - 1].open && run[|run| - 1].published == history[|history| - 1].published
  {
    var s := history[|history| - 1];
    var ids := set name | name in s.dirs && name.Part? :: name.id;
    var next := SomeBound(ids);
    assert forall id: nat :: Part(id) in s.dirs <==> id in ids;
    var s' := s.(open := true, nextId := next);
    assert IsNextId(s.dirs, next);
    assert Open(s, s');
    HistoryExtends(n, history, s');
    run := history + [s'];
  }

  /** The writer can crash in every state. What was in progress is never published, and
      after opening again an insert can be, over whatever the crash has left. */
  lemma RetryAfterCrash(n: nat, history: seq<State>, t: Token, u: Token) returns (run: seq<State>)
    requires Run(n, history) && history[|history| - 1].open
    requires t in history[|history| - 1].inserts && u !in history[|history| - 1].used
    ensures Run(n, run) && history < run && !run[|history|].open && run[|history|].dirs == history[|history| - 1].dirs
    ensures Gone(run[|run| - 1], t) && u in run[|run| - 1].published && Visible(run[|run| - 1], run[|run| - 1].published[u])
  {
    var k := |history| - 1;
    var s := history[k];
    RunKeeps(n, history, k);
    GoneByCrash(n, s, t);
    var s' := s.(open := false, inserts := map[]);
    assert Crash(s, s') && Step(n, s, s');
    HistoryExtends(n, history, s');
    run := WriterCanOpen(n, history + [s']);
    assert u !in run[|run| - 1].used;
    assert run[|history|] == s';
    var reopened := run;
    hide *;
    run := NewInsertCanPublish(n, reopened, u);
    IsPublished(n, reopened[|reopened| - 1], run[|run| - 1], u);
    assert run[|history|] == s';
    GoneIsNeverPublished(n, run, |history|, |run| - 1, t);
  }

  lemma GoneByCrash(n: nat, s: State, t: Token)
    requires Inv(n, s) && t in s.inserts
    ensures Gone(s.(open := false, inserts := map[]), t)
  {
    assert Progressing(n, s, t);
  }

  lemma IsPublished(n: nat, s: State, s': State, t: Token)
    requires PublishedIn(n, s, s', t)
    ensures t in s'.published && Visible(s', s'.published[t])
  {
    hide CompleteBy;
  }

  /** While it writes its files an insert can fail: it leaves nothing and is never
      published, and the next one can be. */
  lemma RetryAfterFailure(n: nat, history: seq<State>, t: Token, u: Token) returns (run: seq<State>)
    requires Run(n, history) && history[|history| - 1].open && u !in history[|history| - 1].used
    requires t in history[|history| - 1].inserts
    requires var phase := history[|history| - 1].inserts[t].phase; phase.Writing? || phase.Zoning?
    ensures Run(n, run) && history < run && Tmp(history[|history| - 1].inserts[t].id) !in run[|history|].dirs
    ensures Gone(run[|run| - 1], t) && u in run[|run| - 1].published && Visible(run[|run| - 1], run[|run| - 1].published[u])
  {
    var s := history[|history| - 1];
    RunKeeps(n, history, |history| - 1);
    var s' := s.(dirs := s.dirs - {Tmp(s.inserts[t].id)}, inserts := s.inserts - {t});
    assert Fail(s, s', t) && s'.open && u !in s'.used && Tmp(s.inserts[t].id) !in s'.dirs;
    FailLeavesNothing(n, s, s', t);
    FailIsWriting(n, s, s', t);
    hide *;
    WritingIsStepOf(n, s, s', t, 0);
    StepOfIsStep(n, s, s', t);
    HistoryExtends(n, history, s');
    run := NewInsertCanPublish(n, history + [s'], u);
    IsPublished(n, s', run[|run| - 1], u);
    assert run[|history|] == s';
    GoneIsNeverPublished(n, run, |history|, |run| - 1, t);
  }
}
