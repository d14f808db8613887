/**
 * Byte accounting of uploaded assets (backend/src/repositories/workspace-storage.ts and
 * workspace-asset-groups.ts): one workspace's asset counter, its asset rows, and the uploads and
 * deletes in progress, each advancing one `await` at a time.
 */
module StorageAccounting {
  import opened Options
  import opened Sequences

  datatype AssetKind = File | Doc

  datatype Origin = Upload | GoogleDrive

  datatype Row = Row(id: nat, groupId: string, kind: AssetKind, origin: Origin, fileSizeBytes: nat)

  /** How a delete names an asset: by its id within one group of the workspace. */
  datatype AssetRef = AssetRef(groupId: string, id: nat)

  /** An upload in progress; once its row is inserted it holds no reservation. */
  datatype Running = Running(id: nat, groupId: string, kind: AssetKind, bytes: nat, inserted: bool)

  /** A delete that has read what it will release but not yet deleted. */
  datatype Deleting = OneAsset(asset: AssetRef, release: nat) | WholeGroup(groupId: string, release: nat)

  datatype State = State(
    assetBytes: nat, rows: seq<Row>, running: seq<Running>, deleting: seq<Deleting>, uploads: nat, assets: nat)

  datatype Step =
    | Begin(groupId: string, kind: AssetKind, bytes: nat, valid: bool)
    | GroupFull(upload: nat)
    | UploadFailed(upload: nat)
    | InsertEmpty(upload: nat)
    | Threw(upload: nat)
    | Inserted(upload: nat)
    | Finished(upload: nat)
    | DriveDoc(groupId: string)
    | ReadAsset(asset: AssetRef)
    | ReadGroup(groupId: string)
    | CommitDelete(n: nat)

  // ---------------------------------------------------------------------------
  // Counting bytes
  // ---------------------------------------------------------------------------

  /** The bytes a row is charged for: uploaded files only. */
  function Charge(r: Row): nat {
    if r.kind == File && r.origin == Upload then r.fileSizeBytes else 0
  }

  function Stored(rows: seq<Row>): nat {
    if rows == [] then 0 else Charge(rows[0]) + Stored(rows[1..])
  }

  function Reservation(u: Running): nat {
    if u.kind == File && !u.inserted then u.bytes else 0
  }

  function Reserved(running: seq<Running>): nat {
    if running == [] then 0 else Reservation(running[0]) + Reserved(running[1..])
  }

  /** The counter equals the bytes of stored upload rows plus the bytes reserved by uploads still running. */
  ghost predicate Balanced(s: State) {
    s.assetBytes == Stored(s.rows) + Reserved(s.running)
  }

  // ---------------------------------------------------------------------------
  // Lookups and removals
  // ---------------------------------------------------------------------------

  predicate Names(a: AssetRef, r: Row) {
    r.id == a.id && r.groupId == a.groupId
  }

  function FindRow(rows: seq<Row>, a: AssetRef): Option<Row> {
    if rows == [] then None else if Names(a, rows[0]) then Some(rows[0]) else FindRow(rows[1..], a)
  }

  function RemoveRow(rows: seq<Row>, a: AssetRef): seq<Row> {
    if rows == [] then [] else if Names(a, rows[0]) then rows[1..] else [rows[0]] + RemoveRow(rows[1..], a)
  }

  function OfGroup(rows: seq<Row>, groupId: string): seq<Row> {
    if rows == [] then []
    else if rows[0].groupId == groupId then [rows[0]] + OfGroup(rows[1..], groupId)
    else OfGroup(rows[1..], groupId)
  }

  function OutsideGroup(rows: seq<Row>, groupId: string): seq<Row> {
    if rows == [] then []
    else if rows[0].groupId != groupId then [rows[0]] + OutsideGroup(rows[1..], groupId)
    else OutsideGroup(rows[1..], groupId)
  }

  function FindUpload(running: seq<Running>, id: nat): Option<Running> {
    if running == [] then None else if running[0].id == id then Some(running[0]) else FindUpload(running[1..], id)
  }

  function RemoveUpload(running: seq<Running>, id: nat): seq<Running> {
    if running == [] then [] else if running[0].id == id then running[1..] else [running[0]] + RemoveUpload(running[1..], id)
  }

  function MarkInserted(running: seq<Running>, id: nat): seq<Running> {
    if running == [] then []
    else if running[0].id == id then [running[0].(inserted := true)] + running[1..]
    else [running[0]] + MarkInserted(running[1..], id)
  }

  // ---------------------------------------------------------------------------
  // Steps
  // ---------------------------------------------------------------------------

  /** `reserveWorkspaceStorage` refuses an empty file. */
  function Reserve(assetBytes: nat, bytes: nat): Option<nat> {
    if bytes == 0 then None else Some(assetBytes + bytes)
  }

  /** `releaseWorkspaceStorage`: the counter stops at zero. */
  function Release(assetBytes: nat, bytes: nat): nat {
    if bytes > assetBytes then 0 else assetBytes - bytes
  }

  /** The exits of an upload that return its reservation. */
  function FailingExit(step: Step): Option<nat> {
    match step
    case GroupFull(u) => Some(u)
    case UploadFailed(u) => Some(u)
    case InsertEmpty(u) => Some(u)
    case Threw(u) => Some(u)
    case _ => None
  }

  /** Where in its run an upload can leave by this exit: only an exception can come after the insert. */
  predicate CanLeave(u: Running, step: Step) {
    step.Threw? || !u.inserted
  }

  function Next(s: State, step: Step): State {
    match step
    case Begin(groupId, kind, bytes, valid) =>
      if !valid || (kind == File && Reserve(s.assetBytes, bytes).None?) then s.(uploads := s.uploads + 1)
      else s.(assetBytes := if kind == File then Reserve(s.assetBytes, bytes).value else s.assetBytes,
              running := s.running + [Running(s.uploads, groupId, kind, bytes, false)],
              uploads := s.uploads + 1)
    case Inserted(id) =>
      var u := FindUpload(s.running, id);
      if u.None? || u.value.inserted then s
      else s.(rows := s.rows + [Row(s.assets, u.value.groupId, u.value.kind, Upload, u.value.bytes)],
              running := MarkInserted(s.running, id), assets := s.assets + 1)
    case Finished(id) =>
      var u := FindUpload(s.running, id);
      if u.None? || !u.value.inserted then s else s.(running := RemoveUpload(s.running, id))
    case DriveDoc(groupId) =>
      s.(rows := s.rows + [Row(s.assets, groupId, Doc, GoogleDrive, 0)], assets := s.assets + 1)
    case ReadAsset(a) =>
      var row := FindRow(s.rows, a);
      if row.None? then s else s.(deleting := s.deleting + [OneAsset(a, Charge(row.value))])
    case ReadGroup(groupId) => s.(deleting := s.deleting + [WholeGroup(groupId, Stored(OfGroup(s.rows, groupId)))])
    case CommitDelete(n) =>
      if n >= |s.deleting| then s
      else
        var d := s.deleting[n];
        s.(rows := Remaining(s.rows, d), assetBytes := Release(s.assetBytes, d.release),
           deleting := s.deleting[..n] + s.deleting[n + 1..])
    case _ =>
      var id := FailingExit(step).value;
      var u := FindUpload(s.running, id);
      if u.None? || !CanLeave(u.value, step) then s
      else s.(assetBytes := Release(s.assetBytes, if u.value.kind == File then u.value.bytes else 0),
              running := RemoveUpload(s.running, id))
  }

  function Remaining(rows: seq<Row>, d: Deleting): seq<Row> {
    match d
    case OneAsset(a, _) => RemoveRow(rows, a)
    case WholeGroup(groupId, _) => OutsideGroup(rows, groupId)
  }

  // ---------------------------------------------------------------------------
  // When a step keeps the balance
  // ---------------------------------------------------------------------------

  /** The upload that takes this failing exit, if it can. */
  function Leaver(s: State, step: Step): Option<Running> {
    var id := FailingExit(step);
    if id.None? then None
    else
      var u := FindUpload(s.running, id.value);
      if u.None? || !CanLeave(u.value, step) then None else u
  }

  /** Bytes that stop being stored or reserved. */
  function Leaves(s: State, step: Step): nat {
    if step.CommitDelete? && step.n < |s.deleting| then
      RemainingStores(s.rows, s.deleting[step.n]);
      Stored(s.rows) - Stored(Remaining(s.rows, s.deleting[step.n]))
    else if Leaver(s, step).Some? then Reservation(Leaver(s, step).value)
    else 0
  }

  /** Bytes handed to `releaseWorkspaceStorage`. */
  function Returns(s: State, step: Step): nat {
    if step.CommitDelete? && step.n < |s.deleting| then s.deleting[step.n].release
    else if Leaver(s, step).Some? && Leaver(s, step).value.kind == File then Leaver(s, step).value.bytes
    else 0
  }

  lemma {:induction false} FindRowFinds(rows: seq<Row>, a: AssetRef)
    ensures FindRow(rows, a).Some? <==> exists r <- rows :: r.id == a.id && r.groupId == a.groupId
    ensures FindRow(rows, a).Some? ==> FindRow(rows, a).value in rows && Names(a, FindRow(rows, a).value)
  {
    if rows != [] {
      FindRowFinds(rows[1..], a);
      assert rows == [rows[0]] + rows[1..];
    }
  }

  lemma {:induction false} RemoveRowStores(rows: seq<Row>, a: AssetRef)
    ensures Stored(RemoveRow(rows, a)) + (if FindRow(rows, a).Some? then Charge(FindRow(rows, a).value) else 0)
            == Stored(rows)
  {
    if rows != [] {
      RemoveRowStores(rows[1..], a);
    }
  }

  lemma {:induction false} OutsideGroupStores(rows: seq<Row>, groupId: string)
    ensures Stored(OutsideGroup(rows, groupId)) + Stored(OfGroup(rows, groupId)) == Stored(rows)
  {
    if rows != [] {
      OutsideGroupStores(rows[1..], groupId);
    }
  }

  lemma RemainingStores(rows: seq<Row>, d: Deleting)
    ensures Stored(Remaining(rows, d)) <= Stored(rows)
  {
    match d
    case OneAsset(a, _) => RemoveRowStores(rows, a);
    case WholeGroup(groupId, _) => OutsideGroupStores(rows, groupId);
  }

  lemma {:induction false} StoredAppend(rows: seq<Row>, r: Row)
    ensures Stored(rows + [r]) == Stored(rows) + Charge(r)
  {
    if rows == [] {
      assert rows + [r] == [r];
    } else {
      assert (rows + [r])[1..] == rows[1..] + [r];
      StoredAppend(rows[1..], r);
    }
  }

  lemma {:induction false} ReservedAppend(running: seq<Running>, u: Running)
    ensures Reserved(running + [u]) == Reserved(running) + Reservation(u)
  {
    if running == [] {
      assert running + [u] == [u];
    } else {
      assert (running + [u])[1..] == running[1..] + [u];
      ReservedAppend(running[1..], u);
    }
  }

  lemma {:induction false} RemoveUploadReserved(running: seq<Running>, id: nat)
    ensures var u := FindUpload(running, id);
            Reserved(RemoveUpload(running, id)) + (if u.Some? then Reservation(u.value) else 0) == Reserved(running)
  {
    if running != [] {
      RemoveUploadReserved(running[1..], id);
    }
  }

  lemma {:induction false} MarkInsertedReserved(running: seq<Running>, id: nat)
    ensures var u := FindUpload(running, id);
            Reserved(MarkInserted(running, id)) + (if u.Some? then Reservation(u.value) else 0) == Reserved(running)
  {
    if running != [] {
      MarkInsertedReserved(running[1..], id);
    }
  }

  /** Bytes that become reserved. */
  function Adds(step: Step): nat {
    if step.Begin? && step.valid && step.kind == File then step.bytes else 0
  }

  /** Each step changes the counter and the bytes accounted for by these amounts. */
  lemma StepAmounts(s: State, step: Step)
    ensures var s' := Next(s, step);
            && Leaves(s, step) <= Stored(s.rows) + Reserved(s.running)
            && Stored(s'.rows) + Reserved(s'.running)
               == Stored(s.rows) + Reserved(s.running) + Adds(step) - Leaves(s, step)
            && s'.assetBytes == Release(s.assetBytes, Returns(s, step)) + Adds(step)
  {
    hide Stored, Reserved, FindRow, FindUpload, RemoveRow, RemoveUpload, MarkInserted, OutsideGroup, OfGroup;
    match step
    case Begin(groupId, kind, bytes, valid) =>
      ReservedAppend(s.running, Running(s.uploads, groupId, kind, bytes, false));
    case Inserted(id) =>
      var u := FindUpload(s.running, id);
      MarkInsertedReserved(s.running, id);
      if u.Some? {
        StoredAppend(s.rows, Row(s.assets, u.value.groupId, u.value.kind, Upload, u.value.bytes));
      }
    case Finished(id) => RemoveUploadReserved(s.running, id);
    case DriveDoc(groupId) => StoredAppend(s.rows, Row(s.assets, groupId, Doc, GoogleDrive, 0));
    case ReadAsset(_) =>
    case ReadGroup(_) =>
    case CommitDelete(n) =>
      if n < |s.deleting| { RemainingStores(s.rows, s.deleting[n]); }
    case _ => RemoveUploadReserved(s.running, FailingExit(step).value);
  }

  /** Only a new upload adds, and it leaves and returns nothing. */
  lemma AddsAlone(s: State, step: Step)
    ensures Adds(step) > 0 ==> Leaves(s, step) == 0 && Returns(s, step) == 0
  {
  }

  /**
   * A step keeps the balance exactly when it returns what leaves, or when the counter, all of
   * which leaves, is clamped at zero.
   */
  lemma BalanceKeptExactly(s: State, step: Step)
    requires Balanced(s)
    ensures Balanced(Next(s, step))
            <==> Returns(s, step) == Leaves(s, step)
                 || (Returns(s, step) > s.assetBytes && Leaves(s, step) == s.assetBytes)
  {
    hide Next, Leaves, Returns, Stored, Reserved;
    StepAmounts(s, step);
    AddsAlone(s, step);
  }

  // ---------------------------------------------------------------------------
  // Which steps return exactly what leaves
  // ---------------------------------------------------------------------------

  /** An exception strikes an uploaded file after its row was inserted. */
  predicate LateThrow(s: State, step: Step) {
    step.Threw? && Leaver(s, step).Some? && Leaver(s, step).value.inserted
    && Leaver(s, step).value.kind == File && Leaver(s, step).value.bytes > 0
  }

  /** The rows a delete removes still carry the bytes it read. */
  predicate UpToDate(rows: seq<Row>, d: Deleting) {
    match d
    case OneAsset(a, release) =>
      release == if FindRow(rows, a).Some? then Charge(FindRow(rows, a).value) else 0
    case WholeGroup(groupId, release) => release == Stored(OfGroup(rows, groupId))
  }

  /** A failing exit before the insert returns its reservation; a delete must find what it read. */
  lemma ExactExactly(s: State, step: Step)
    ensures Returns(s, step) == Leaves(s, step)
            <==> !LateThrow(s, step)
                 && (step.CommitDelete? && step.n < |s.deleting| ==> UpToDate(s.rows, s.deleting[step.n]))
  {
    hide Stored, FindRow, FindUpload, RemoveRow, OutsideGroup, OfGroup;
    if step.CommitDelete? && step.n < |s.deleting| {
      match s.deleting[step.n]
      case OneAsset(a, _) => RemoveRowStores(s.rows, a);
      case WholeGroup(groupId, _) => OutsideGroupStores(s.rows, groupId);
    }
  }

  function After(run: seq<Step>, n: nat): State
    requires n <= |run|
  {
    if n == 0 then State(0, [], [], [], 0, 0) else Next(After(run, n - 1), run[n - 1])
  }

  /** A delete that has read what it will release commits next; no exception follows an insert. */
  predicate InOrder(s: State, step: Step) {
    (s.deleting != [] ==> step.CommitDelete?) && !LateThrow(s, step)
  }

  ghost predicate Orderly(run: seq<Step>) {
    forall i {:trigger InOrder(After(run, i), run[i])} | 0 <= i < |run| :: InOrder(After(run, i), run[i])
  }

  lemma {:induction false} PendingUpToDate(run: seq<Step>, n: nat)
    requires Orderly(run) && n <= |run|
    ensures var s := After(run, n); |s.deleting| <= 1 && forall d <- s.deleting :: UpToDate(s.rows, d)
    decreases n
  {
    hide UpToDate, Next, LateThrow;
    if n > 0 {
      PendingUpToDate(run, n - 1);
      assert InOrder(After(run, n - 1), run[n - 1]);
      ReadIsUpToDate(After(run, n - 1), run[n - 1]);
    }
  }

  lemma ReadIsUpToDate(s: State, step: Step)
    requires s.deleting != [] ==> step.CommitDelete? && |s.deleting| == 1 && UpToDate(s.rows, s.deleting[0])
    ensures var s' := Next(s, step); |s'.deleting| <= 1 && forall d <- s'.deleting :: UpToDate(s'.rows, d)
  {
    hide Stored, FindRow, FindUpload, RemoveRow, OutsideGroup, OfGroup;
  }

  /** A step that returns exactly what leaves: no late exception, and a delete that still finds what it read. */
  predicate Exact(s: State, step: Step) {
    !LateThrow(s, step) && (step.CommitDelete? && step.n < |s.deleting| ==> UpToDate(s.rows, s.deleting[step.n]))
  }

  ghost predicate ExactUpTo(run: seq<Step>, n: nat)
    requires n <= |run|
  {
    forall i {:trigger Exact(After(run, i), run[i])} | 0 <= i < n :: Exact(After(run, i), run[i])
  }

  /** The balance holds after every step, and the clamp at zero bites at none. */
  ghost predicate Conserved(run: seq<Step>, n: nat)
    requires n <= |run|
  {
    && (forall i {:trigger Balanced(After(run, i))} | 0 <= i <= n :: Balanced(After(run, i)))
    && (forall i {:trigger Returns(After(run, i), run[i])} | 0 <= i < n ::
          Returns(After(run, i), run[i]) <= After(run, i).assetBytes)
  }

  lemma ConservedStep(s: State, step: Step)
    requires Balanced(s)
    ensures Balanced(Next(s, step)) && Returns(s, step) <= s.assetBytes <==> Exact(s, step)
  {
    hide Next, Leaves, Returns, Stored, Reserved, LateThrow, UpToDate;
    BalanceKeptExactly(s, step);
    ExactExactly(s, step);
    StepAmounts(s, step);
  }

  /**
   * Byte conservation: in any run of uploads and deletes, however interleaved, the counter equals
   * stored plus reserved bytes after every step with the clamp never biting, if and only if each
   * step was exact.
   */
  lemma {:induction false} BytesConserved(run: seq<Step>, n: nat)
    requires n <= |run|
    ensures Conserved(run, n) <==> ExactUpTo(run, n)
    decreases n
  {
    hide After, Next, Leaves, Returns, Balanced, Exact;
    if n == 0 {
      EmptyBalanced(run);
    } else {
      BytesConserved(run, n - 1);
      AfterNext(run, n - 1);
      var s, step := After(run, n - 1), run[n - 1];
      if Balanced(s) {
        ConservedStep(s, step);
      }
      assert Exact(s, step) <==> Exact(After(run, n - 1), run[n - 1]);
      assert Balanced(Next(s, step)) <==> Balanced(After(run, n));
    }
  }

  /** In particular when every delete commits right after its read and no exception follows an insert. */
  lemma OrderlyBytesConserved(run: seq<Step>)
    requires Orderly(run)
    ensures ExactUpTo(run, |run|) && Conserved(run, |run|)
  {
    hide After, LateThrow, UpToDate, Returns, Balanced;
    forall i | 0 <= i < |run| ensures Exact(After(run, i), run[i]) {
      PendingUpToDate(run, i);
      assert InOrder(After(run, i), run[i]);
    }
    BytesConserved(run, |run|);
  }

  lemma EmptyBalanced(run: seq<Step>)
    ensures Balanced(After(run, 0))
  {
  }

  lemma AfterNext(run: seq<Step>, n: nat)
    requires n < |run|
    ensures After(run, n + 1) == Next(After(run, n), run[n])
  {
  }

  lemma {:induction false} MarkedIsFound(running: seq<Running>, id: nat)
    requires FindUpload(running, id).Some?
    ensures FindUpload(MarkInserted(running, id), id) == Some(FindUpload(running, id).value.(inserted := true))
  {
    if running[0].id != id {
      MarkedIsFound(running[1..], id);
    }
  }

  /** Both conditions are needed: an exception after the insert gives back bytes that stay stored. */
  lemma LateThrowUnbalances(s: State, id: nat)
    requires Balanced(s) && FindUpload(s.running, id).Some?
    requires var u := FindUpload(s.running, id).value; u.kind == File && !u.inserted && u.bytes > 0
    ensures !Balanced(Next(Next(s, Inserted(id)), Threw(id)))
  {
    hide Stored, Reserved, FindUpload, MarkInserted, RemoveUpload;
    var s' := Next(s, Inserted(id));
    MarkedIsFound(s.running, id);
    RemoveUploadReserved(s.running, id);
    BalanceKeptExactly(s, Inserted(id));
    BalanceKeptExactly(s', Threw(id));
  }

  lemma {:induction false} NotFoundStays(rows: seq<Row>, a: AssetRef)
    requires FindRow(rows, a).None?
    ensures RemoveRow(rows, a) == rows
  {
    if rows != [] {
      NotFoundStays(rows[1..], a);
    }
  }

  /** Two deletes that both read one asset give its bytes back twice, while anything else is stored. */
  lemma DoubleDeleteUnbalances(s: State, a: AssetRef)
    requires Balanced(s) && s.deleting == [] && FindRow(s.rows, a).Some? && Charge(FindRow(s.rows, a).value) > 0
    requires FindRow(RemoveRow(s.rows, a), a).None?
    requires Stored(RemoveRow(s.rows, a)) + Reserved(s.running) > 0
    ensures var read := Next(Next(s, ReadAsset(a)), ReadAsset(a));
            !Balanced(Next(Next(read, CommitDelete(0)), CommitDelete(0)))
  {
    hide Stored, Reserved, FindRow, RemoveRow, Charge;
    var charge := Charge(FindRow(s.rows, a).value);
    var d := OneAsset(a, charge);
    var read := Next(Next(s, ReadAsset(a)), ReadAsset(a));
    assert read == s.(deleting := [d, d]);
    var once := Next(read, CommitDelete(0));
    RemoveRowStores(s.rows, a);
    NotFoundStays(RemoveRow(s.rows, a), a);
    assert once == s.(rows := RemoveRow(s.rows, a), assetBytes := s.assetBytes - charge, deleting := [d]);
    assert Next(once, CommitDelete(0)).rows == once.rows;
  }

  /** From the empty workspace: a file of five bytes is uploaded, and an exception follows its insert. */
  lemma LateThrowRun()
    ensures !Balanced(After([Begin("g", File, 5, true), Inserted(0), Threw(0)], 3))
  {
    var run := [Begin("g", File, 5, true), Inserted(0), Threw(0)];
    var begun := State(5, [], [Running(0, "g", File, 5, false)], [], 1, 0);
    assert After(run, 1) == begun by {
      AfterNext(run, 0);
    }
    LateThrowUnbalances(begun, 0);
    AfterNext(run, 1);
    AfterNext(run, 2);
  }

  /** From the empty workspace: two files are uploaded, and the first is deleted twice at once. */
  lemma DoubleDeleteRun()
    ensures var first := AssetRef("g", 0);
            !Balanced(After(
              [Begin("g", File, 5, true), Inserted(0), Finished(0), Begin("g", File, 7, true), Inserted(1), Finished(1),
               ReadAsset(first), ReadAsset(first), CommitDelete(0), CommitDelete(0)], 10))
  {
    hide After, Next;
    var first := AssetRef("g", 0);
    var run := [Begin("g", File, 5, true), Inserted(0), Finished(0), Begin("g", File, 7, true), Inserted(1), Finished(1),
                ReadAsset(first), ReadAsset(first), CommitDelete(0), CommitDelete(0)];
    var stored := State(12, [Row(0, "g", File, Upload, 5), Row(1, "g", File, Upload, 7)], [], [], 2, 2);
    EmptyAfter(run);
    UploadSucceeds(run, 0, "g", 5);
    UploadSucceeds(run, 3, "g", 7);
    assert After(run, 6) == stored;
    var rest := stored.rows[1..];
    assert RemoveRow(stored.rows, first) == rest && rest[1..] == [];
    assert Stored(rest) == 7 && Stored(stored.rows) == 12;
    DoubleDeleteUnbalances(stored, first);
    AfterNext(run, 6);
    AfterNext(run, 7);
    AfterNext(run, 8);
    AfterNext(run, 9);
  }

  /** An upload that succeeds with no other running: its row is stored and its bytes stay counted. */
  lemma UploadSucceeds(run: seq<Step>, n: nat, groupId: string, bytes: nat)
    requires n + 3 <= |run| && After(run, n).running == [] && bytes > 0
    requires run[n] == Begin(groupId, File, bytes, true)
    requires run[n + 1] == Inserted(After(run, n).uploads) && run[n + 2] == Finished(After(run, n).uploads)
    ensures var s := After(run, n);
            After(run, n + 3)
            == State(s.assetBytes + bytes, s.rows + [Row(s.assets, groupId, File, Upload, bytes)], [], s.deleting,
                     s.uploads + 1, s.assets + 1)
  {
    hide After;
    AfterNext(run, n);
    AfterNext(run, n + 1);
    AfterNext(run, n + 2);
  }

  lemma EmptyAfter(run: seq<Step>)
    ensures After(run, 0) == State(0, [], [], [], 0, 0)
  {
  }

  // ---------------------------------------------------------------------------
  // Every upload ends once
  // ---------------------------------------------------------------------------

  /** The upload that this step ends, by a failing exit or by success. */
  function Ends(s: State, step: Step): Option<nat> {
    if Leaver(s, step).Some? then FailingExit(step)
    else if step.Finished? && FindUpload(s.running, step.upload).Some? && FindUpload(s.running, step.upload).value.inserted
    then Some(step.upload)
    else None
  }

  /** An upload that gets past validation and reservation. */
  predicate Starts(s: State, step: Step) {
    step.Begin? && step.valid && (step.kind == File ==> step.bytes > 0)
  }

  ghost predicate Numbered(s: State) {
    && (forall i | 0 <= i < |s.running| :: s.running[i].id < s.uploads)
    && (forall i, j | 0 <= i < j < |s.running| :: s.running[i].id != s.running[j].id)
  }

  predicate IsRunning(s: State, u: nat) {
    FindUpload(s.running, u).Some?
  }

  lemma {:induction false} FindUploadLaws(running: seq<Running>, id: nat)
    ensures FindUpload(running, id).Some? <==> exists i :: 0 <= i < |running| && running[i].id == id
  {
    if running != [] {
      FindUploadLaws(running[1..], id);
      if i :| 0 <= i < |running[1..]| && running[1..][i].id == id {
        assert running[i + 1].id == id;
      }
      if i :| 0 < i < |running| && running[i].id == id {
        assert running[1..][i - 1].id == id;
      }
    }
  }

  lemma {:induction false} RemoveUploadLaws(running: seq<Running>, id: nat) returns (at: nat)
    requires FindUpload(running, id).Some?
    ensures at < |running| && running[at].id == id
    ensures RemoveUpload(running, id) == running[..at] + running[at + 1..]
  {
    if running[0].id == id {
      at := 0;
    } else {
      var d := RemoveUploadLaws(running[1..], id);
      at := d + 1;
    }
  }

  lemma {:induction false} MarkInsertedLaws(running: seq<Running>, id: nat)
    ensures |MarkInserted(running, id)| == |running|
    ensures forall i | 0 <= i < |running| :: MarkInserted(running, id)[i].id == running[i].id
  {
    if running != [] {
      MarkInsertedLaws(running[1..], id);
    }
  }

  lemma EndStep(s: State, step: Step, u: nat)
    requires Numbered(s)
    ensures var s' := Next(s, step);
            && Numbered(s')
            && s'.uploads == s.uploads + (if step.Begin? then 1 else 0)
            && (IsRunning(s', u) <==> (IsRunning(s, u) && Ends(s, step) != Some(u)) || (Starts(s, step) && u == s.uploads))
            && (Ends(s, step) == Some(u) ==> IsRunning(s, u))
            && (IsRunning(s, u) ==> u < s.uploads)
  {
    hide FindUpload, RemoveUpload, MarkInserted, FindRow, RemoveRow, OutsideGroup, OfGroup, Stored;
    var s' := Next(s, step);
    FindUploadLaws(s.running, u);
    FindUploadLaws(s'.running, u);
    if Ends(s, step).Some? {
      var at := RemoveUploadLaws(s.running, Ends(s, step).value);
      RemovedRunning(s, at, s', u);
    } else if step.Inserted? {
      MarkInsertedLaws(s.running, step.upload);
      SameIds(s.running, s'.running, u);
    } else if step.Begin? {
      BegunRunning(s, step, u);
    }
  }

  lemma SameIds(a: seq<Running>, b: seq<Running>, u: nat)
    requires |a| == |b| && forall i | 0 <= i < |a| :: a[i].id == b[i].id
    ensures (exists i :: 0 <= i < |a| && a[i].id == u) <==> exists i :: 0 <= i < |b| && b[i].id == u
  {
    if i :| 0 <= i < |a| && a[i].id == u { assert b[i].id == u; }
    if i :| 0 <= i < |b| && b[i].id == u { assert a[i].id == u; }
  }

  lemma RemovedRunning(s: State, at: nat, s': State, u: nat)
    requires Numbered(s) && at < |s.running| && s'.running == s.running[..at] + s.running[at + 1..]
    requires s'.uploads == s.uploads
    ensures Numbered(s')
    ensures (exists i :: 0 <= i < |s'.running| && s'.running[i].id == u)
            <==> (exists i :: 0 <= i < |s.running| && s.running[i].id == u) && u != s.running[at].id
  {
    forall i | 0 <= i < |s'.running| ensures s'.running[i] == s.running[if i < at then i else i + 1] {}
    if i :| 0 <= i < |s.running| && s.running[i].id == u && i != at {
      assert s'.running[if i < at then i else i - 1].id == u;
    }
  }

  lemma BegunRunning(s: State, step: Step, u: nat)
    requires Numbered(s) && step.Begin?
    ensures var s' := Next(s, step);
            && Numbered(s')
            && ((exists i :: 0 <= i < |s'.running| && s'.running[i].id == u)
                <==> (exists i :: 0 <= i < |s.running| && s.running[i].id == u) || (Starts(s, step) && u == s.uploads))
  {
    var s' := Next(s, step);
    if Starts(s, step) {
      assert s'.running[|s.running|].id == s.uploads;
      forall i | 0 <= i < |s.running| ensures s'.running[i] == s.running[i] {}
    }
  }

  predicate StartedWithin(run: seq<Step>, n: nat, u: nat)
    requires n <= |run|
  {
    exists i {:trigger Starts(After(run, i), run[i])} | 0 <= i < n ::
      After(run, i).uploads == u && Starts(After(run, i), run[i])
  }

  function EndCount(run: seq<Step>, n: nat, u: nat): nat
    requires n <= |run|
  {
    if n == 0 then 0 else EndCount(run, n - 1, u) + if Ends(After(run, n - 1), run[n - 1]) == Some(u) then 1 else 0
  }

  /** An upload that started ends exactly once, by one failing exit or by success, or is still running. */
  lemma {:induction false} UploadsEndOnce(run: seq<Step>, n: nat, u: nat)
    requires n <= |run|
    ensures Numbered(After(run, n))
    ensures IsRunning(After(run, n), u) ==> StartedWithin(run, n, u)
    ensures StartedWithin(run, n, u) ==> u < After(run, n).uploads
    ensures EndCount(run, n, u) == if StartedWithin(run, n, u) && !IsRunning(After(run, n), u) then 1 else 0
    decreases n
  {
    hide Next, Ends, Starts, Numbered, IsRunning;
    if n == 0 {
      NothingRunning(u);
    } else {
      var s, step := After(run, n - 1), run[n - 1];
      UploadsEndOnce(run, n - 1, u);
      EndStep(s, step, u);
      StartsBegins(s, step);
      assert StartedWithin(run, n, u) <==> StartedWithin(run, n - 1, u) || (s.uploads == u && Starts(s, step)) by {
        if StartedWithin(run, n - 1, u) {
          var i :| 0 <= i < n - 1 && After(run, i).uploads == u && Starts(After(run, i), run[i]);
          assert 0 <= i < n;
        }
      }
    }
  }

  lemma NothingRunning(u: nat)
    ensures Numbered(State(0, [], [], [], 0, 0)) && !IsRunning(State(0, [], [], [], 0, 0), u)
  {
  }

  lemma StartsBegins(s: State, step: Step)
    ensures Starts(s, step) ==> step.Begin?
  {
  }

  // ---------------------------------------------------------------------------
  // Each step, told by places
  // ---------------------------------------------------------------------------

  /** The first row of this id and group stands at `n`. */
  ghost predicate RowAt(rows: seq<Row>, a: AssetRef, n: nat) {
    && n < |rows| && rows[n].id == a.id && rows[n].groupId == a.groupId
    && forall m | 0 <= m < n :: rows[m].id != a.id || rows[m].groupId != a.groupId
  }

  ghost predicate NoRow(rows: seq<Row>, a: AssetRef) {
    forall m | 0 <= m < |rows| :: rows[m].id != a.id || rows[m].groupId != a.groupId
  }

  /** The upload `id` stands at `n`, and has its row or not. */
  ghost predicate UploadAt(running: seq<Running>, id: nat, n: nat) {
    n < |running| && running[n].id == id && forall m | 0 <= m < n :: running[m].id != id
  }

  ghost predicate NoUpload(running: seq<Running>, id: nat) {
    forall m | 0 <= m < |running| :: running[m].id != id
  }

  function Cut<T>(s: seq<T>, n: nat): seq<T>
    requires n < |s|
  {
    s[..n] + s[n + 1..]
  }

  function InGroup(groupId: string): Row -> bool {
    (r: Row) => r.groupId == groupId
  }

  function NotInGroup(groupId: string): Row -> bool {
    (r: Row) => r.groupId != groupId
  }

  /** The counter after giving bytes back; it stops at zero. */
  ghost predicate Returned(before: nat, bytes: nat, after: nat) {
    (bytes <= before ==> after + bytes == before) && (bytes > before ==> after == 0)
  }

  /** A failing exit of upload `id`: its reservation goes back and it runs no more. */
  ghost predicate Left(s: State, id: nat, anytime: bool, s': State) {
    && (forall n: nat | UploadAt(s.running, id, n) && (anytime || !s.running[n].inserted) ::
          && s' == s.(assetBytes := s'.assetBytes, running := Cut(s.running, n))
          && Returned(s.assetBytes, if s.running[n].kind == File then s.running[n].bytes else 0, s'.assetBytes))
    && (forall n: nat | UploadAt(s.running, id, n) && !anytime && s.running[n].inserted :: s' == s)
    && (NoUpload(s.running, id) ==> s' == s)
  }

  ghost predicate Committed(s: State, n: nat, s': State)
    requires n < |s.deleting|
  {
    var d := s.deleting[n];
    && s' == s.(rows := s'.rows, assetBytes := s'.assetBytes, deleting := Cut(s.deleting, n))
    && Returned(s.assetBytes, d.release, s'.assetBytes)
    && match d
       case OneAsset(a, _) =>
         && (forall m: nat | RowAt(s.rows, a, m) :: s'.rows == Cut(s.rows, m))
         && (NoRow(s.rows, a) ==> s'.rows == s.rows)
       case WholeGroup(groupId, _) => Chosen(s.rows, s'.rows, NotInGroup(groupId))
  }

  /** What each step does, told by places of the lists it works on. */
  ghost predicate Stepped(s: State, step: Step, s': State) {
    match step
    case Begin(groupId, kind, bytes, valid) =>
      s' == if valid && (kind == Doc || bytes > 0)
            then s.(assetBytes := s.assetBytes + (if kind == File then bytes else 0),
                    running := s.running + [Running(s.uploads, groupId, kind, bytes, false)], uploads := s.uploads + 1)
            else s.(uploads := s.uploads + 1)
    case GroupFull(id) => Left(s, id, false, s')
    case UploadFailed(id) => Left(s, id, false, s')
    case InsertEmpty(id) => Left(s, id, false, s')
    case Threw(id) => Left(s, id, true, s')
    case Inserted(id) =>
      && (forall n: nat | UploadAt(s.running, id, n) && !s.running[n].inserted ::
            var u := s.running[n];
            s' == s.(rows := s.rows + [Row(s.assets, u.groupId, u.kind, Upload, u.bytes)],
                     running := s.running[n := u.(inserted := true)], assets := s.assets + 1))
      && (forall n: nat | UploadAt(s.running, id, n) && s.running[n].inserted :: s' == s)
      && (NoUpload(s.running, id) ==> s' == s)
    case Finished(id) =>
      && (forall n: nat | UploadAt(s.running, id, n) ::
            s' == if s.running[n].inserted then s.(running := Cut(s.running, n)) else s)
      && (NoUpload(s.running, id) ==> s' == s)
    case DriveDoc(groupId) =>
      s' == s.(rows := s.rows + [Row(s.assets, groupId, Doc, GoogleDrive, 0)], assets := s.assets + 1)
    case ReadAsset(a) =>
      && (forall n: nat | RowAt(s.rows, a, n) :: s' == s.(deleting := s.deleting + [OneAsset(a, Charge(s.rows[n]))]))
      && (NoRow(s.rows, a) ==> s' == s)
    case ReadGroup(groupId) =>
      exists rows :: Chosen(s.rows, rows, InGroup(groupId))
        && s' == s.(deleting := s.deleting + [WholeGroup(groupId, Stored(rows))])
    case CommitDelete(n) => if n < |s.deleting| then Committed(s, n, s') else s' == s
  }

  lemma {:induction false} FindRowAt(rows: seq<Row>, a: AssetRef, n: nat)
    requires RowAt(rows, a, n)
    ensures FindRow(rows, a) == Some(rows[n]) && RemoveRow(rows, a) == Cut(rows, n)
  {
    if n > 0 {
      assert RowAt(rows[1..], a, n - 1);
      FindRowAt(rows[1..], a, n - 1);
      assert Cut(rows, n) == [rows[0]] + Cut(rows[1..], n - 1);
    }
  }

  lemma {:induction false} FindNoRow(rows: seq<Row>, a: AssetRef)
    requires NoRow(rows, a)
    ensures FindRow(rows, a) == None && RemoveRow(rows, a) == rows
  {
    if rows != [] {
      FindNoRow(rows[1..], a);
    }
  }

  lemma UploadTail(running: seq<Running>, id: nat, n: nat)
    requires UploadAt(running, id, n) && n > 0
    ensures UploadAt(running[1..], id, n - 1) && running[0].id != id && running[1..][n - 1] == running[n]
    ensures Cut(running, n) == [running[0]] + Cut(running[1..], n - 1)
  {
  }

  lemma {:induction false} FindUploadAt(running: seq<Running>, id: nat, n: nat)
    requires UploadAt(running, id, n)
    ensures FindUpload(running, id) == Some(running[n]) && RemoveUpload(running, id) == Cut(running, n)
  {
    if n > 0 {
      UploadTail(running, id, n);
      FindUploadAt(running[1..], id, n - 1);
    }
  }

  lemma {:induction false} MarkUploadAt(running: seq<Running>, id: nat, n: nat)
    requires UploadAt(running, id, n)
    ensures MarkInserted(running, id) == running[n := running[n].(inserted := true)]
  {
    if n > 0 {
      UploadTail(running, id, n);
      hide UploadAt;
      MarkUploadAt(running[1..], id, n - 1);
    }
  }

  lemma {:induction false} OutsideGroupFilters(rows: seq<Row>, groupId: string)
    ensures OutsideGroup(rows, groupId) == FilterMap(rows, Keeping(NotInGroup(groupId)))
  {
    if rows != [] {
      OutsideGroupFilters(rows[1..], groupId);
    }
  }

  lemma {:induction false} OfGroupFilters(rows: seq<Row>, groupId: string)
    ensures OfGroup(rows, groupId) == FilterMap(rows, Keeping(InGroup(groupId)))
  {
    if rows != [] {
      OfGroupFilters(rows[1..], groupId);
    }
  }

  /** The rows outside a group, and those in it: all of them, in order. */
  lemma GroupChosen(rows: seq<Row>, groupId: string)
    ensures Chosen(rows, OutsideGroup(rows, groupId), NotInGroup(groupId))
    ensures Chosen(rows, OfGroup(rows, groupId), InGroup(groupId))
  {
    OutsideGroupFilters(rows, groupId);
    OfGroupFilters(rows, groupId);
    FilterMapChooses(rows, NotInGroup(groupId));
    FilterMapChooses(rows, InGroup(groupId));
  }

  lemma RowPlaces(rows: seq<Row>, a: AssetRef)
    ensures forall n: nat | RowAt(rows, a, n) ::
              FindRow(rows, a) == Some(rows[n]) && RemoveRow(rows, a) == Cut(rows, n)
    ensures NoRow(rows, a) ==> FindRow(rows, a) == None && RemoveRow(rows, a) == rows
  {
    forall n: nat | RowAt(rows, a, n) ensures FindRow(rows, a) == Some(rows[n]) && RemoveRow(rows, a) == Cut(rows, n) {
      FindRowAt(rows, a, n);
    }
    if NoRow(rows, a) { FindNoRow(rows, a); }
  }

  lemma LeftExactly(s: State, step: Step)
    requires FailingExit(step).Some?
    ensures Left(s, FailingExit(step).value, step.Threw?, Next(s, step))
  {
    hide FindUpload, RemoveUpload, MarkInserted;
    var id := FailingExit(step).value;
    forall n: nat | UploadAt(s.running, id, n) ensures FindUpload(s.running, id) == Some(s.running[n])
      ensures RemoveUpload(s.running, id) == Cut(s.running, n)
    {
      FindUploadAt(s.running, id, n);
    }
    FindUploadLaws(s.running, id);
  }

  lemma CommittedExactly(s: State, n: nat)
    requires n < |s.deleting|
    ensures Committed(s, n, Next(s, CommitDelete(n)))
  {
    hide FindRow, RemoveRow, OutsideGroup, Chosen;
    match s.deleting[n]
    case OneAsset(a, _) =>
      RowPlaces(s.rows, a);
    case WholeGroup(groupId, _) => GroupChosen(s.rows, groupId);
  }

  /** Every step does exactly what it is told to by places. */
  lemma NextExactly(s: State, step: Step)
    ensures Stepped(s, step, Next(s, step))
  {
    hide FindRow, RemoveRow, OutsideGroup, OfGroup, Chosen, FindUpload, RemoveUpload, MarkInserted, Left, Committed;
    match step
    case Inserted(id) =>
      forall n: nat | UploadAt(s.running, id, n) ensures FindUpload(s.running, id) == Some(s.running[n])
        ensures MarkInserted(s.running, id) == s.running[n := s.running[n].(inserted := true)]
      {
        FindUploadAt(s.running, id, n);
        MarkUploadAt(s.running, id, n);
      }
      FindUploadLaws(s.running, id);
    case Finished(id) =>
      forall n: nat | UploadAt(s.running, id, n) ensures FindUpload(s.running, id) == Some(s.running[n])
        ensures RemoveUpload(s.running, id) == Cut(s.running, n)
      {
        FindUploadAt(s.running, id, n);
      }
      FindUploadLaws(s.running, id);
    case ReadAsset(a) =>
      RowPlaces(s.rows, a);
    case ReadGroup(groupId) => GroupChosen(s.rows, groupId);
    case CommitDelete(n) => if n < |s.deleting| { CommittedExactly(s, n); }
    case Begin(_, _, _, _) =>
    case DriveDoc(_) =>
    case _ => LeftExactly(s, step);
  }

  // ---------------------------------------------------------------------------
  // The workspace
  // ---------------------------------------------------------------------------

  class Workspace {
    var assetBytes: nat
    var rows: seq<Row>
    var running: seq<Running>
    var deleting: seq<Deleting>
    var uploads: nat
    var assets: nat

    constructor ()
      ensures View() == State(0, [], [], [], 0, 0)
    {
      assetBytes, rows, running, deleting, uploads, assets := 0, [], [], [], 0, 0;
    }

    ghost function View(): State
      reads this
    {
      State(assetBytes, rows, running, deleting, uploads, assets)
    }

    method ReserveWorkspaceStorage(byteLength: nat) returns (ok: bool)
      modifies this`assetBytes
      ensures ok <==> byteLength > 0
      ensures assetBytes == old(assetBytes) + byteLength
    {
      if byteLength <= 0 { return false; }
      assetBytes := assetBytes + byteLength;
      ok := true;
    }

    method ReleaseWorkspaceStorage(byteLength: nat)
      modifies this`assetBytes
      ensures assetBytes == Release(old(assetBytes), byteLength)
    {
      if byteLength <= 0 { return; }
      assetBytes := if assetBytes < byteLength then 0 else assetBytes - byteLength;
    }

    method BeginUpload(groupId: string, kind: AssetKind, bytes: nat, valid: bool)
      modifies this
      ensures View() == Next(old(View()), Begin(groupId, kind, bytes, valid))
      ensures Stepped(old(View()), Begin(groupId, kind, bytes, valid), View())
    {
      hide Stepped;
      NextExactly(View(), Begin(groupId, kind, bytes, valid));
      var id := uploads;
      uploads := uploads + 1;
      if !valid { return; }
      if kind == File {
        var ok := ReserveWorkspaceStorage(bytes);
        if !ok { return; }
      }
      running := running + [Running(id, groupId, kind, bytes, false)];
    }

    /** The four failing exits of an upload. */
    method FailUpload(step: Step)
      requires FailingExit(step).Some?
      modifies this
      ensures View() == Next(old(View()), step)
      ensures Stepped(old(View()), step, View())
    {
      hide Stepped;
      NextExactly(View(), step);
      var id := FailingExit(step).value;
      var u := FindUpload(running, id);
      if u.None? || !CanLeave(u.value, step) { return; }
      if u.value.kind == File {
        ReleaseWorkspaceStorage(u.value.bytes);
      }
      running := RemoveUpload(running, id);
    }

    method InsertRow(id: nat)
      modifies this
      ensures View() == Next(old(View()), Inserted(id))
      ensures Stepped(old(View()), Inserted(id), View())
    {
      hide Stepped;
      NextExactly(View(), Inserted(id));
      var u := FindUpload(running, id);
      if u.None? || u.value.inserted { return; }
      rows := rows + [Row(assets, u.value.groupId, u.value.kind, Upload, u.value.bytes)];
      running := MarkInserted(running, id);
      assets := assets + 1;
    }

    method FinishUpload(id: nat)
      modifies this
      ensures View() == Next(old(View()), Finished(id))
      ensures Stepped(old(View()), Finished(id), View())
    {
      hide Stepped;
      NextExactly(View(), Finished(id));
      var u := FindUpload(running, id);
      if u.None? || !u.value.inserted { return; }
      running := RemoveUpload(running, id);
    }

    method DeleteAgentAssetFromGroup(groupId: string, assetId: nat) returns (found: bool)
      modifies this
      ensures found <==> exists r <- old(rows) :: r.id == assetId && r.groupId == groupId
      ensures var read := Next(old(View()), ReadAsset(AssetRef(groupId, assetId)));
              View() == if found then Next(read, CommitDelete(|old(deleting)|)) else read
      ensures running == old(running) && deleting == old(deleting) && uploads == old(uploads) && assets == old(assets)
      ensures !found ==> rows == old(rows) && assetBytes == old(assetBytes)
      ensures forall n: nat | RowAt(old(rows), AssetRef(groupId, assetId), n) ::
                rows == Cut(old(rows), n) && Returned(old(assetBytes), Charge(old(rows)[n]), assetBytes)
    {
      var asset := AssetRef(groupId, assetId);
      var row := FindRow(rows, asset);
      FindRowFinds(rows, asset);
      RowPlaces(rows, asset);
      hide FindRow, RemoveRow, RowAt, Cut;
      if row.None? { return false; }
      rows := RemoveRow(rows, asset);
      if row.value.kind == File && row.value.origin == Upload && row.value.fileSizeBytes > 0 {
        ReleaseWorkspaceStorage(row.value.fileSizeBytes);
      }
      found := true;
    }

    method DeleteWorkspaceAssetGroup(groupId: string)
      modifies this
      ensures View() == Next(Next(old(View()), ReadGroup(groupId)), CommitDelete(|old(deleting)|))
      ensures running == old(running) && deleting == old(deleting) && uploads == old(uploads) && assets == old(assets)
      ensures Chosen(old(rows), rows, NotInGroup(groupId))
      ensures Stored(rows) <= Stored(old(rows))
      ensures Returned(old(assetBytes), Stored(old(rows)) - Stored(rows), assetBytes)
    {
      GroupChosen(rows, groupId);
      OutsideGroupStores(rows, groupId);
      hide Chosen, OutsideGroup;
      var bytesToRelease := SumGroup(groupId);
      rows := OutsideGroup(rows, groupId);
      if bytesToRelease > 0 {
        ReleaseWorkspaceStorage(bytesToRelease);
      }
    }

    /** The source's filter and reduce over the rows of a group. */
    method SumGroup(groupId: string) returns (bytes: nat)
      ensures bytes == Stored(OfGroup(rows, groupId))
    {
      bytes := 0;
      for n := 0 to |rows|
        invariant bytes + Stored(OfGroup(rows[n..], groupId)) == Stored(OfGroup(rows, groupId))
      {
        assert rows[n..][1..] == rows[n + 1..];
        if rows[n].groupId == groupId && rows[n].kind == File && rows[n].origin == Upload {
          bytes := bytes + rows[n].fileSizeBytes;
        }
      }
    }
  }
}
