/** The row-lock protocol behind the atomic steps. Single-row transactions are
    split into begin, acquire, hook, write and commit, and interleave freely;
    every such run is matched, table by table, by a run of atomic steps. */
module Locking {
  import opened Optional
  import opened TaskModel
  import opened Protocol

  type TxId = nat

  datatype Phase =
    | Begun(seen: Task)                 // snapshot taken, nothing locked
    | Held(base: Task)                  // row locked and re-read
    | Written(base: Task, next: Task)   // row written, not yet committed

  datatype Tx = Tx(op: RowOp, id: TaskId, phase: Phase)

  datatype Machine = Machine(sys: Sys, txs: map<TxId, Tx>, locks: map<TaskId, TxId>)

  datatype Micro =
    | Begin(tx: TxId, op: RowOp, id: TaskId)
    | Acquire(tx: TxId)
    | RunHook(tx: TxId)                 // user code under the lock; may raise, is swallowed
    | WriteRow(tx: TxId)
    | Commit(tx: TxId)
    | Abort(tx: TxId)                   // serialization failure, error, process death
    | Whole(step: Step)                 // a multi-row transaction, waiting for row locks

  ghost function Drop(m: Machine, tx: TxId): Machine {
    var unlocked := map id | id in m.locks && m.locks[id] != tx :: m.locks[id];
    Machine(m.sys, m.txs - {tx}, unlocked)
  }

  ghost function Lock(m: Machine, tx: TxId, base: Task): Machine
    requires tx in m.txs
  {
    Machine(m.sys, m.txs[tx := m.txs[tx].(phase := Held(base))], m.locks[m.txs[tx].id := tx])
  }

  /** Final writes use FOR UPDATE SKIP LOCKED and decide on the row re-read under
      the lock. Other writes decide on their snapshot, wait for the lock, and
      abort when the row moved on meanwhile. */
  ghost function Acquired(m: Machine, tx: TxId): Machine
    requires tx in m.txs && m.txs[tx].phase.Begun? && m.txs[tx].id < |m.sys.rows|
  {
    var t := m.txs[tx];
    var current := m.sys.rows[t.id];
    if Final(t.op) then
      if t.id in m.locks || Effect(t.op, current).None? then Drop(m, tx) else Lock(m, tx, current)
    else
      if t.id in m.locks then m
      else if current != t.phase.seen || Effect(t.op, t.phase.seen).None? then Drop(m, tx)
      else Lock(m, tx, t.phase.seen)
  }

  /** Committing writes the buffered row and its history, whatever the table holds. */
  ghost function Committed(m: Machine, tx: TxId): Machine
    requires Shaped(m.sys)
    requires tx in m.txs && m.txs[tx].phase.Written? && m.txs[tx].id < |m.sys.rows|
  {
    var t := m.txs[tx];
    var h := m.sys.hist;
    var h' := h.(
      consumed := h.consumed + if Final(t.op) && t.phase.base.runner.Some?
                               then multiset{t.phase.base.runner.value} else multiset{},
      begun := h.begun + if t.op.Start? && t.phase.base.runner.Some?
                         then multiset{t.phase.base.runner.value} else multiset{},
      starts := if t.op.Start? then h.starts[t.id := h.starts[t.id] + 1] else h.starts);
    Drop(m, tx).(sys := Sys(m.sys.rows[t.id := t.phase.next], h'))
  }

  /** A whole transaction goes through only if it leaves every locked row alone. */
  ghost predicate ClearOfLocks(m: Machine, step: Step)
    requires Shaped(m.sys)
  {
    forall id :: id in m.locks && id < |m.sys.rows| && id < |Apply(m.sys, step).rows|
      ==> Apply(m.sys, step).rows[id] == m.sys.rows[id]
  }

  ghost function Next(m: Machine, micro: Micro): Machine
    requires Shaped(m.sys)
  {
    match micro
    case Begin(tx, op, id) =>
      if tx !in m.txs && id < |m.sys.rows|
      then m.(txs := m.txs[tx := Tx(op, id, Begun(m.sys.rows[id]))]) else m
    case Acquire(tx) =>
      if tx in m.txs && m.txs[tx].phase.Begun? && m.txs[tx].id < |m.sys.rows| then Acquired(m, tx) else m
    case RunHook(tx) => m
    case WriteRow(tx) =>
      if tx in m.txs && m.txs[tx].phase.Held? && Effect(m.txs[tx].op, m.txs[tx].phase.base).Some?
      then var t := m.txs[tx];
           m.(txs := m.txs[tx := t.(phase := Written(t.phase.base, Effect(t.op, t.phase.base).value))])
      else m
    case Commit(tx) =>
      if tx in m.txs && m.txs[tx].phase.Written? && m.txs[tx].id < |m.sys.rows| then Committed(m, tx) else m
    case Abort(tx) => Drop(m, tx)
    case Whole(step) => if ClearOfLocks(m, step) then m.(sys := Apply(m.sys, step)) else m
  }

  // ---- the lock invariant --------------------------------------------------

  ghost predicate Holding(m: Machine, tx: TxId) {
    tx in m.txs && !m.txs[tx].phase.Begun?
  }

  /** A transaction past acquire holds its row's lock, the committed row is still
      the one it re-read, and its decision on it still stands. */
  ghost predicate Sound(m: Machine, tx: TxId)
    requires Holding(m, tx)
  {
    var t := m.txs[tx];
    && t.id in m.locks && m.locks[t.id] == tx
    && t.id < |m.sys.rows|
    && t.phase.base == m.sys.rows[t.id]
    && Effect(t.op, t.phase.base).Some?
    && (t.phase.Written? ==> t.phase.next == Effect(t.op, t.phase.base).value)
  }

  ghost predicate LockInv(m: Machine) {
    && Shaped(m.sys)
    && (forall tx :: Holding(m, tx) ==> Sound(m, tx))
    && (forall id :: id in m.locks ==> Holding(m, m.locks[id]) && m.txs[m.locks[id]].id == id)
  }

  /** Two transactions never hold the same row. */
  lemma LocksExclude(m: Machine, a: TxId, b: TxId)
    requires LockInv(m) && Holding(m, a) && Holding(m, b) && m.txs[a].id == m.txs[b].id
    ensures a == b
  {
    assert Sound(m, a) && Sound(m, b);
  }

  /** The atomic steps a micro step amounts to: a commit is one row step, a whole
      transaction is itself, everything else changes no committed row. */
  ghost function Meaning(m: Machine, micro: Micro): (r: seq<Step>)
    requires Shaped(m.sys)
    ensures |r| <= 1
  {
    match micro
    case Commit(tx) =>
      if tx in m.txs && m.txs[tx].phase.Written? && m.txs[tx].id < |m.sys.rows|
      then [Row(m.txs[tx].op, m.txs[tx].id)] else []
    case Whole(step) => if ClearOfLocks(m, step) then [step] else []
    case _ => []
  }

  lemma CommitStands(m: Machine, tx: TxId)
    requires LockInv(m) && tx in m.txs && m.txs[tx].phase.Written?
    ensures var t := m.txs[tx];
            && t.id < |m.sys.rows| && t.phase.base == m.sys.rows[t.id]
            && Effect(t.op, m.sys.rows[t.id]) == Some(t.phase.next)
            && Enabled(m.sys, Row(t.op, t.id))
  {
    assert Holding(m, tx) && Sound(m, tx);
  }

  /** A commit is the atomic compare-and-set it stands for. */
  lemma CommitIsAtomic(m: Machine, tx: TxId)
    requires LockInv(m) && tx in m.txs && m.txs[tx].phase.Written?
    ensures m.txs[tx].id < |m.sys.rows|
    ensures Enabled(m.sys, Row(m.txs[tx].op, m.txs[tx].id))
    ensures Next(m, Commit(tx)).sys == Apply(m.sys, Row(m.txs[tx].op, m.txs[tx].id))
  {
    CommitStands(m, tx);
    var t := m.txs[tx];
    RowStep(m.sys, t.op, t.id);
    assert Next(m, Commit(tx)) == Committed(m, tx);
  }

  function Carried(t: Task): multiset<RunnerId> {
    if t.runner.Some? then multiset{t.runner.value} else multiset{}
  }

  /** The row step, field by field. */
  lemma RowStep(s: Sys, op: RowOp, id: TaskId)
    requires Shaped(s) && Enabled(s, Row(op, id))
    ensures var base, h := s.rows[id], s.hist;
            Apply(s, Row(op, id)) == Sys(
              s.rows[id := Effect(op, base).value],
              h.(consumed := h.consumed + (if Final(op) then Carried(base) else multiset{}),
                 begun := h.begun + (if op.Start? then Carried(base) else multiset{}),
                 starts := if op.Start? then h.starts[id := h.starts[id] + 1] else h.starts))
  {
    var h, h' := s.hist, Record(s, Row(op, id));
    assert h'.issued == h.issued;
    assert Zeros(0) == [] && Caps([]) == [];
    assert h'.starts == if op.Start? then h.starts[id := h.starts[id] + 1] else h.starts;
    assert h'.manual == h.manual && h'.cap == h.cap;
  }

  lemma MicroIsMeaning(m: Machine, micro: Micro)
    requires LockInv(m)
    ensures var meaning := Meaning(m, micro);
            Next(m, micro).sys == if meaning == [] then m.sys else Apply(m.sys, meaning[0])
  {
    if micro.Commit? && micro.tx in m.txs && m.txs[micro.tx].phase.Written? {
      CommitIsAtomic(m, micro.tx);
    }
  }

  lemma DropKeepsLocks(m: Machine, tx: TxId)
    requires LockInv(m)
    ensures LockInv(Drop(m, tx))
  {
    var m' := Drop(m, tx);
    forall other | Holding(m', other) ensures Sound(m', other) { assert Sound(m, other); }
    forall id | id in m'.locks ensures Holding(m', m'.locks[id]) && m'.txs[m'.locks[id]].id == id {
      assert Holding(m, m.locks[id]);
    }
  }

  lemma AcquireKeepsLocks(m: Machine, tx: TxId)
    requires LockInv(m)
    requires tx in m.txs && m.txs[tx].phase.Begun? && m.txs[tx].id < |m.sys.rows|
    ensures LockInv(Acquired(m, tx))
  {
    DropKeepsLocks(m, tx);
    var m' := Acquired(m, tx);
    forall other | Holding(m', other) ensures Sound(m', other) {
      if other != tx { assert Sound(m, other); }
    }
    forall id | id in m'.locks ensures Holding(m', m'.locks[id]) && m'.txs[m'.locks[id]].id == id {
      if id in m.locks { assert Holding(m, m.locks[id]); }
    }
  }

  lemma CommitKeepsLocks(m: Machine, tx: TxId)
    requires LockInv(m)
    requires tx in m.txs && m.txs[tx].phase.Written? && m.txs[tx].id < |m.sys.rows|
    ensures LockInv(Committed(m, tx))
  {
    CommitIsAtomic(m, tx);
    StepShape(m.sys, Row(m.txs[tx].op, m.txs[tx].id));
    var m' := Committed(m, tx);
    assert Sound(m, tx);
    forall other | Holding(m', other) ensures Sound(m', other) {
      assert Sound(m, other);
    }
    forall id | id in m'.locks ensures Holding(m', m'.locks[id]) && m'.txs[m'.locks[id]].id == id {
      assert Holding(m, m.locks[id]);
    }
  }

  lemma WholeKeepsLocks(m: Machine, step: Step)
    requires LockInv(m) && ClearOfLocks(m, step)
    ensures LockInv(m.(sys := Apply(m.sys, step)))
  {
    StepShape(m.sys, step);
    var m' := m.(sys := Apply(m.sys, step));
    forall tx | Holding(m', tx) ensures Sound(m', tx) { assert Sound(m, tx); }
    forall id | id in m'.locks ensures Holding(m', m'.locks[id]) && m'.txs[m'.locks[id]].id == id {
      assert Holding(m, m.locks[id]);
    }
  }

  lemma NextKeepsLocks(m: Machine, micro: Micro)
    requires LockInv(m)
    ensures LockInv(Next(m, micro))
  {
    match micro
    case Acquire(tx) =>
      if tx in m.txs && m.txs[tx].phase.Begun? && m.txs[tx].id < |m.sys.rows| { AcquireKeepsLocks(m, tx); }
    case Commit(tx) =>
      if tx in m.txs && m.txs[tx].phase.Written? && m.txs[tx].id < |m.sys.rows| { CommitKeepsLocks(m, tx); }
    case Abort(tx) => DropKeepsLocks(m, tx);
    case Whole(step) => if ClearOfLocks(m, step) { WholeKeepsLocks(m, step); }
    case Begin(tx, op, id) => BufferKeepsLocks(m, micro);
    case WriteRow(tx) => BufferKeepsLocks(m, micro);
    case RunHook(tx) =>
  }

  lemma BufferKeepsLocks(m: Machine, micro: Micro)
    requires LockInv(m) && (micro.Begin? || micro.WriteRow?)
    ensures LockInv(Next(m, micro))
  {
    var m' := Next(m, micro);
    forall tx | Holding(m', tx) ensures Sound(m', tx) { assert Holding(m, tx) && Sound(m, tx); }
    forall id | id in m'.locks ensures Holding(m', m'.locks[id]) && m'.txs[m'.locks[id]].id == id {
      assert Holding(m, m.locks[id]);
    }
  }

  // ---- progress ----------------------------------------------------------------

  /** The machine after some micro steps. */
  ghost function Does(m: Machine, micros: seq<Micro>): (r: Machine)
    requires LockInv(m)
    ensures LockInv(r)
    decreases |micros|
  {
    if micros == [] then m
    else
      NextKeepsLocks(m, micros[0]);
      Does(Next(m, micros[0]), micros[1..])
  }

  /** What a transaction does once it has begun. */
  function Rest(tx: TxId): seq<Micro> {
    [Acquire(tx), WriteRow(tx), Commit(tx)]
  }

  lemma RestSteps(m: Machine, tx: TxId)
    requires LockInv(m)
    ensures var a := Next(m, Acquire(tx));
            && LockInv(a) && LockInv(Next(a, WriteRow(tx)))
            && Does(m, Rest(tx)) == Next(Next(a, WriteRow(tx)), Commit(tx))
  {
    var a := Next(m, Acquire(tx));
    NextKeepsLocks(m, Acquire(tx));
    NextKeepsLocks(a, WriteRow(tx));
    var b := Next(a, WriteRow(tx));
    assert Rest(tx)[1..] == [WriteRow(tx), Commit(tx)] && [WriteRow(tx), Commit(tx)][1..] == [Commit(tx)];
    assert Does(b, [Commit(tx)]) == Next(b, Commit(tx));
    assert Does(a, [WriteRow(tx), Commit(tx)]) == Does(b, [Commit(tx)]);
  }

  /** The transaction is over: its step has been taken if it had an effect, no lock
      of its own is left, and everybody else is where they were. */
  ghost predicate Ends(m: Machine, m': Machine, tx: TxId, effect: bool)
    requires Shaped(m.sys) && tx in m.txs
  {
    && m'.sys == (if effect then Apply(m.sys, Row(m.txs[tx].op, m.txs[tx].id)) else m.sys)
    && m'.txs == m.txs - {tx} && m'.locks == m.locks
  }

  /** The transaction has begun, on a stored row. */
  ghost predicate Waits(m: Machine, tx: TxId) {
    LockInv(m) && tx in m.txs && m.txs[tx].phase.Begun? && m.txs[tx].id < |m.sys.rows|
  }

  lemma NoLockYet(m: Machine, tx: TxId)
    requires Waits(m, tx)
    ensures forall id :: id in m.locks ==> m.locks[id] != tx
    ensures Drop(m, tx) == Machine(m.sys, m.txs - {tx}, m.locks)
  {
    forall id | id in m.locks ensures m.locks[id] != tx { assert Holding(m, m.locks[id]); }
  }

  /** With the lock taken on the current row, and work found there, write and commit
      are the atomic step. */
  lemma LockedEnds(m: Machine, tx: TxId)
    requires Waits(m, tx) && m.txs[tx].id !in m.locks
    requires var t := m.txs[tx]; Enabled(m.sys, Row(t.op, t.id))
    requires var t := m.txs[tx]; Next(m, Acquire(tx)) == Lock(m, tx, m.sys.rows[t.id])
    ensures Ends(m, Does(m, Rest(tx)), tx, true)
  {
    RestSteps(m, tx);
    var b := Next(Next(m, Acquire(tx)), WriteRow(tx));
    LockedWrites(m, tx);
    NoLockYet(m, tx);
    CommitIsAtomic(b, tx);
    CommitReleases(m, b, tx);
  }

  /** The row buffered, the lock held, everything else as it was. */
  ghost predicate Buffered(m: Machine, b: Machine, tx: TxId)
    requires tx in m.txs
  {
    && b.sys == m.sys && b.locks == m.locks[m.txs[tx].id := tx]
    && tx in b.txs && b.txs == m.txs[tx := b.txs[tx]]
    && b.txs[tx].op == m.txs[tx].op && b.txs[tx].id == m.txs[tx].id && b.txs[tx].phase.Written?
  }

  lemma LockedWrites(m: Machine, tx: TxId)
    requires Waits(m, tx) && m.txs[tx].id !in m.locks
    requires var t := m.txs[tx]; Enabled(m.sys, Row(t.op, t.id))
    requires var t := m.txs[tx]; Next(m, Acquire(tx)) == Lock(m, tx, m.sys.rows[t.id])
    ensures Shaped(Next(m, Acquire(tx)).sys) && Buffered(m, Next(Next(m, Acquire(tx)), WriteRow(tx)), tx)
  {
  }

  lemma CommitReleases(m: Machine, b: Machine, tx: TxId)
    requires Shaped(b.sys) && tx in m.txs && m.txs[tx].id !in m.locks && m.txs[tx].id < |b.sys.rows|
    requires Buffered(m, b, tx) && forall id :: id in m.locks ==> m.locks[id] != tx
    ensures Next(b, Commit(tx)).txs == m.txs - {tx} && Next(b, Commit(tx)).locks == m.locks
  {
  }

  lemma DroppedEnds(m: Machine, tx: TxId)
    requires Waits(m, tx) && Next(m, Acquire(tx)) == Drop(m, tx)
    ensures Ends(m, Does(m, Rest(tx)), tx, false)
  {
    RestSteps(m, tx);
    NoLockYet(m, tx);
  }

  /** A final write skips a locked row, and writes an unlocked one exactly when the
      row as it stands under the lock gives it something to do. */
  lemma FinalWriteEnds(m: Machine, tx: TxId)
    requires Waits(m, tx) && Final(m.txs[tx].op)
    ensures var t := m.txs[tx];
            Ends(m, Does(m, Rest(tx)), tx, t.id !in m.locks && Effect(t.op, m.sys.rows[t.id]).Some?)
  {
    var t := m.txs[tx];
    if t.id !in m.locks && Effect(t.op, m.sys.rows[t.id]).Some? { LockedEnds(m, tx); } else { DroppedEnds(m, tx); }
  }

  /** Any other write waits while the row is locked; then it goes through exactly when
      the row is still the one it saw and gave it something to do. */
  lemma OtherWriteEnds(m: Machine, tx: TxId)
    requires Waits(m, tx) && !Final(m.txs[tx].op)
    ensures var t := m.txs[tx];
            if t.id in m.locks then Next(m, Acquire(tx)) == m
            else Ends(m, Does(m, Rest(tx)), tx, m.sys.rows[t.id] == t.phase.seen && Effect(t.op, t.phase.seen).Some?)
  {
    var t := m.txs[tx];
    if t.id !in m.locks {
      if m.sys.rows[t.id] == t.phase.seen && Effect(t.op, t.phase.seen).Some? {
        LockedEnds(m, tx);
      } else {
        DroppedEnds(m, tx);
      }
    }
  }

  /** So a transaction nobody is in the way of does what its atomic step does, and one
      that finds its row locked, or nothing to do, changes nothing: a final write then
      gives up, any other waits for the lock. */
  lemma AloneIsAtomic(m: Machine, tx: TxId, op: RowOp, id: TaskId)
    requires LockInv(m) && tx !in m.txs && id < |m.sys.rows|
    ensures LockInv(Next(m, Begin(tx, op, id)))
    ensures var m', free := Does(Next(m, Begin(tx, op, id)), Rest(tx)), id !in m.locks;
            && m'.sys == (if free && Effect(op, m.sys.rows[id]).Some? then Apply(m.sys, Row(op, id)) else m.sys)
            && m'.locks == m.locks
            && (tx in m'.txs <==> !free && (op.Start? || op.MarkStuck? || op.Park? || op.Disown?))
            && m'.txs - {tx} == m.txs
  {
    var begun := Next(m, Begin(tx, op, id));
    NextKeepsLocks(m, Begin(tx, op, id));
    assert begun.txs - {tx} == m.txs;
    if Final(op) {
      FinalWriteEnds(begun, tx);
    } else {
      OtherWriteEnds(begun, tx);
      if id in m.locks { RestSteps(begun, tx); }
    }
  }

  /** A whole transaction goes through exactly when every row it changes is unlocked. */
  lemma WholeGoesThroughIff(m: Machine, step: Step)
    requires LockInv(m)
    ensures |Apply(m.sys, step).rows| >= |m.sys.rows|
    ensures Next(m, Whole(step))
            == if exists id: TaskId :: id in m.locks && Apply(m.sys, step).rows[id] != m.sys.rows[id]
               then m else m.(sys := Apply(m.sys, step))
  {
    StepShape(m.sys, step);
    forall id | id in m.locks ensures id < |m.sys.rows| { assert Sound(m, m.locks[id]); }
  }

  // ---- refinement over runs ---------------------------------------------------

  ghost function Boot(): Machine {
    Machine(Init(), map[], map[])
  }

  ghost function Interleave(micros: seq<Micro>): (r: Machine)
    ensures LockInv(r)
    decreases |micros|
  {
    if micros == [] then Boot()
    else
      var before := Interleave(micros[..|micros| - 1]);
      NextKeepsLocks(before, micros[|micros| - 1]);
      Next(before, micros[|micros| - 1])
  }

  /** The atomic run an interleaving stands for. */
  ghost function Serial(micros: seq<Micro>): seq<Step>
    decreases |micros|
  {
    if micros == [] then []
    else
      Serial(micros[..|micros| - 1])
        + Meaning(Interleave(micros[..|micros| - 1]), micros[|micros| - 1])
  }

  /** Refinement: however transactions interleave, the committed table is the one
      reached by running the corresponding atomic steps one after another. */
  lemma {:induction false} InterleavingIsSerial(micros: seq<Micro>)
    ensures Interleave(micros).sys == Reach(Serial(micros))
    decreases |micros|
  {
    if micros != [] {
      var init, last := micros[..|micros| - 1], micros[|micros| - 1];
      InterleavingIsSerial(init);
      MicroIsMeaning(Interleave(init), last);
      var meaning := Meaning(Interleave(init), last);
      if meaning == [] {
        assert Serial(micros) == Serial(init);
      } else {
        assert meaning == [meaning[0]];
        RunOneMore(Serial(init), meaning[0]);
      }
    }
  }

  /** So everything the atomic protocol keeps holds between any two micro steps. */
  lemma InterleavingInv(micros: seq<Micro>)
    ensures Inv(Interleave(micros).sys)
  {
    InterleavingIsSerial(micros);
    ReachInv(Serial(micros));
  }

  /** The micro step commits a final write of a row carrying runner r. */
  ghost predicate Finalizes(m: Machine, micro: Micro, r: RunnerId) {
    && micro.Commit? && micro.tx in m.txs
    && var t := m.txs[micro.tx];
       && t.phase.Written? && t.phase.base.runner == Some(r)
       && (t.op.ThreadDone? || t.op.ThreadRaised? || t.op.Lost?)
  }

  ghost predicate CommitsFinal(micros: seq<Micro>, k: nat, r: RunnerId)
    requires k < |micros|
  {
    Finalizes(Interleave(micros[..k]), micros[k], r)
  }

  ghost function SpentBy(micros: seq<Micro>, k: nat, r: RunnerId): nat
    requires k <= |micros|
  {
    Interleave(micros[..k]).sys.hist.consumed[r]
  }

  lemma MicroSpends(m: Machine, micro: Micro, r: RunnerId)
    requires LockInv(m)
    ensures m.sys.hist.consumed[r] + (if Finalizes(m, micro, r) then 1 else 0) <= Next(m, micro).sys.hist.consumed[r]
  {
    MicroIsMeaning(m, micro);
    if Finalizes(m, micro, r) { CommitStands(m, micro.tx); }
  }

  lemma NextMicro(micros: seq<Micro>, k: nat)
    requires k < |micros|
    ensures Interleave(micros[..k + 1]) == Next(Interleave(micros[..k]), micros[k])
  {
    assert micros[..k + 1][..k] == micros[..k];
  }

  lemma SpentGrows(micros: seq<Micro>, k: nat, r: RunnerId)
    requires k < |micros|
    ensures SpentBy(micros, k, r) + (if CommitsFinal(micros, k, r) then 1 else 0) <= SpentBy(micros, k + 1, r)
  {
    NextMicro(micros, k);
    MicroSpends(Interleave(micros[..k]), micros[k], r);
  }

  ghost function SpentSeq(micros: seq<Micro>, r: RunnerId): (c: seq<nat>)
    ensures |c| == |micros| + 1 && forall k :: 0 <= k <= |micros| ==> c[k] == SpentBy(micros, k, r)
  {
    seq(|micros| + 1, k requires 0 <= k <= |micros| => SpentBy(micros, k, r))
  }

  lemma SpentNeverFalls(micros: seq<Micro>, a: nat, b: nat, r: RunnerId)
    requires a <= b <= |micros|
    ensures SpentBy(micros, a, r) <= SpentBy(micros, b, r)
  {
    var counts := SpentSeq(micros, r);
    forall k | 0 <= k < |counts| - 1 ensures RisesAt(counts, k) { SpentGrows(micros, k, r); }
    NeverFalls(counts, a, b);
  }

  /** One outcome per claim, under arbitrary interleaving: at most one final write
      under a runner id is ever committed. */
  lemma OneCommitPerClaim(micros: seq<Micro>, i: nat, j: nat, r: RunnerId)
    requires i <= j < |micros|
    ensures CommitsFinal(micros, i, r) && CommitsFinal(micros, j, r) ==> i == j
  {
    if CommitsFinal(micros, i, r) && CommitsFinal(micros, j, r) {
      SpentGrows(micros, i, r);
      SpentGrows(micros, j, r);
      if i < j { SpentNeverFalls(micros, i + 1, j, r); }
      InterleavingInv(micros[..j + 1]);
    }
  }

  /** Why the re-read under the lock matters: two finalizers of one execution both
      find work on the same stale row, but whichever writes first leaves a row on
      which the other finds none. */
  lemma RereadMatters(t: Task, r: RunnerId, a: RowOp, b: RowOp)
    requires t.runner == Some(r) && (t.state.Running? || t.state.Stuck?)
    requires Presented(a) == Some(r) && (a.Lost? ==> a.owner.None? || a.owner == t.worker)
    requires Presented(b) == Some(r) && (b.Lost? ==> b.owner.None? || b.owner == t.worker)
    ensures Effect(a, t).Some? && Effect(b, t).Some?
    ensures Effect(b, Effect(a, t).value).None?
  {
  }
}
