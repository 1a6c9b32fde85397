/**
 The state of the descriptor pool's tables and the effect of every operation on it,
 and the theorem that a rollback undoes everything since its checkpoint.
 */
module TablesSpec {
  import opened Descriptors
  import opened Wrappers

  /** The identity of a heap block. */
  type Pointer = nat

  /** A pool-owned string: its block and its value. */
  datatype Cell = Cell(at: Pointer, value: string)

  /** What a table maps a key to: the entity, the cell of the key, the block of the entity. */
  datatype Entry<+T> = Entry(item: T, key: Cell, at: Pointer)

  type ExtensionKey = (string, int)

  datatype Contents = Contents(
    symbols: map<string, Entry<Symbol>>,
    files: map<string, Entry<FileProto>>,
    extensions: map<ExtensionKey, Pointer>,
    strings: seq<Cell>,
    messages: seq<Pointer>,
    fileTables: seq<Pointer>,
    allocations: seq<Pointer>)

  datatype CheckPoint = CheckPoint(
    strings: nat, messages: nat, fileTables: nat, allocations: nat,
    symbols: nat, files: nat, extensions: nat)

  datatype State = State(
    now: Contents,
    checkpoints: seq<CheckPoint>,
    symbolsAfter: seq<string>,
    filesAfter: seq<string>,
    extensionsAfter: seq<ExtensionKey>,
    next: Pointer)

  const EMPTY_CONTENTS: Contents := Contents(map[], map[], map[], [], [], [], [])
  const EMPTY_STATE: State := State(EMPTY_CONTENTS, [], [], [], [], 0)

  function Elements<T>(q: seq<T>): set<T> {
    set x | x in q
  }

  // ----- the operations -----

  function AddCheckpoint(s: State): State {
    s.(checkpoints := s.checkpoints + [
         CheckPoint(|s.now.strings|, |s.now.messages|, |s.now.fileTables|, |s.now.allocations|,
                    |s.symbolsAfter|, |s.filesAfter|, |s.extensionsAfter|)])
  }

  function ClearLastCheckpoint(s: State): State
    requires s.checkpoints != []
  {
    var rest := s.checkpoints[..|s.checkpoints| - 1];
    if rest == [] then s.(checkpoints := [], symbolsAfter := [], filesAfter := [], extensionsAfter := [])
    else s.(checkpoints := rest)
  }

  /** A checkpoint whose counts do not exceed the vectors they count. */
  predicate InRange(s: State, cp: CheckPoint) {
    && cp.strings <= |s.now.strings|
    && cp.messages <= |s.now.messages|
    && cp.fileTables <= |s.now.fileTables|
    && cp.allocations <= |s.now.allocations|
    && cp.symbols <= |s.symbolsAfter|
    && cp.files <= |s.filesAfter|
    && cp.extensions <= |s.extensionsAfter|
  }

  /** What erasing the pending keys from `cp` on, and truncating the vectors to `cp`, leaves. */
  function Undone(s: State, cp: CheckPoint): Contents
    requires InRange(s, cp)
  {
    Contents(
      s.now.symbols - Elements(s.symbolsAfter[cp.symbols..]),
      s.now.files - Elements(s.filesAfter[cp.files..]),
      s.now.extensions - Elements(s.extensionsAfter[cp.extensions..]),
      s.now.strings[..cp.strings],
      s.now.messages[..cp.messages],
      s.now.fileTables[..cp.fileTables],
      s.now.allocations[..cp.allocations])
  }

  function RollbackToLastCheckpoint(s: State): State
    requires s.checkpoints != [] && InRange(s, s.checkpoints[|s.checkpoints| - 1])
  {
    var cp := s.checkpoints[|s.checkpoints| - 1];
    State(Undone(s, cp), s.checkpoints[..|s.checkpoints| - 1],
          s.symbolsAfter[..cp.symbols], s.filesAfter[..cp.files], s.extensionsAfter[..cp.extensions], s.next)
  }

  function AddSymbol(s: State, name: string, e: Entry<Symbol>): State {
    if name in s.now.symbols then s
    else s.(now := s.now.(symbols := s.now.symbols[name := e]), symbolsAfter := s.symbolsAfter + [name])
  }

  function AddFile(s: State, name: string, e: Entry<FileProto>): State {
    if name in s.now.files then s
    else s.(now := s.now.(files := s.now.files[name := e]), filesAfter := s.filesAfter + [name])
  }

  function AddExtension(s: State, key: ExtensionKey, at: Pointer): State {
    if key in s.now.extensions then s
    else s.(now := s.now.(extensions := s.now.extensions[key := at]), extensionsAfter := s.extensionsAfter + [key])
  }

  function AllocateString(s: State, value: string): State {
    s.(now := s.now.(strings := s.now.strings + [Cell(s.next, value)]), next := s.next + 1)
  }

  function AllocateMessage(s: State): State {
    s.(now := s.now.(messages := s.now.messages + [s.next]), next := s.next + 1)
  }

  function AllocateFileTables(s: State): State {
    s.(now := s.now.(fileTables := s.now.fileTables + [s.next]), next := s.next + 1)
  }

  /** A request for no bytes allocates nothing. */
  function AllocateBytes(s: State, size: nat): State {
    if size == 0 then s
    else s.(now := s.now.(allocations := s.now.allocations + [s.next]), next := s.next + 1)
  }

  // ----- what a checkpoint remembers -----

  /** `cp` recovers exactly `c` from the current state. */
  predicate Recovers(s: State, cp: CheckPoint, c: Contents) {
    InRange(s, cp) && Undone(s, cp) == c
  }

  predicate NotAbove(a: CheckPoint, b: CheckPoint) {
    && a.strings <= b.strings && a.messages <= b.messages
    && a.fileTables <= b.fileTables && a.allocations <= b.allocations
    && a.symbols <= b.symbols && a.files <= b.files && a.extensions <= b.extensions
  }

  /** The checkpoints above the `base` lowest ones recover the contents `saved`, one each. */
  ghost predicate Consistent(s: State, base: nat, saved: seq<Contents>) {
    && base + |saved| == |s.checkpoints|
    && (forall k | 0 <= k < |saved| :: Recovers(s, s.checkpoints[base + k], saved[k]))
    && (forall j, k | base <= j < k < |s.checkpoints| :: NotAbove(s.checkpoints[j], s.checkpoints[k]))
  }

  lemma UndoneNow(s: State)
    ensures Recovers(AddCheckpoint(s), AddCheckpoint(s).checkpoints[|s.checkpoints|], s.now)
  {
  }

  lemma CheckpointConsistent(s: State, base: nat, saved: seq<Contents>)
    requires Consistent(s, base, saved)
    ensures Consistent(AddCheckpoint(s), base, saved + [s.now])
  {
    var t := AddCheckpoint(s);
    UndoneNow(s);
    forall k | 0 <= k < |saved|
      ensures Recovers(t, t.checkpoints[base + k], (saved + [s.now])[k])
    {
      assert Recovers(s, s.checkpoints[base + k], saved[k]);
      assert t.checkpoints[base + k] == s.checkpoints[base + k];
    }
    forall j, k | base <= j < k < |t.checkpoints|
      ensures NotAbove(t.checkpoints[j], t.checkpoints[k])
    {
      if k == |s.checkpoints| {
        assert Recovers(s, s.checkpoints[base + (j - base)], saved[j - base]);
      }
    }
  }

  /** Clearing keeps every lower checkpoint; only an emptied stack forgets the pending keys. */
  lemma ClearConsistent(s: State, base: nat, saved: seq<Contents>)
    requires Consistent(s, base, saved) && saved != []
    ensures Consistent(ClearLastCheckpoint(s), base, saved[..|saved| - 1])
  {
  }

  lemma TailSplit<T>(q: seq<T>, i: nat, j: nat)
    requires i <= j <= |q|
    ensures Elements(q[i..]) == Elements(q[..j][i..]) + Elements(q[j..])
  {
  }

  lemma MapMinusTwice<K, V>(m: map<K, V>, a: set<K>, b: set<K>)
    ensures m - a - b == m - (a + b)
  {
  }

  lemma TakeTake<T>(q: seq<T>, i: nat, j: nat)
    requires i <= j <= |q|
    ensures q[..j][..i] == q[..i]
  {
  }

  lemma LowerSurvivesRollback(s: State, low: CheckPoint, c: Contents)
    requires s.checkpoints != [] && InRange(s, s.checkpoints[|s.checkpoints| - 1])
    requires NotAbove(low, s.checkpoints[|s.checkpoints| - 1])
    requires Recovers(s, low, c)
    ensures Recovers(RollbackToLastCheckpoint(s), low, c)
  {
    var t := RollbackToLastCheckpoint(s);
    var top := s.checkpoints[|s.checkpoints| - 1];
    TailSplit(s.symbolsAfter, low.symbols, top.symbols);
    TailSplit(s.filesAfter, low.files, top.files);
    TailSplit(s.extensionsAfter, low.extensions, top.extensions);
    MapMinusTwice(s.now.symbols, Elements(s.symbolsAfter[top.symbols..]), Elements(t.symbolsAfter[low.symbols..]));
    MapMinusTwice(s.now.files, Elements(s.filesAfter[top.files..]), Elements(t.filesAfter[low.files..]));
    MapMinusTwice(s.now.extensions, Elements(s.extensionsAfter[top.extensions..]),
                  Elements(t.extensionsAfter[low.extensions..]));
    assert Elements(s.symbolsAfter[top.symbols..]) + Elements(t.symbolsAfter[low.symbols..])
      == Elements(s.symbolsAfter[low.symbols..]);
    assert Elements(s.filesAfter[top.files..]) + Elements(t.filesAfter[low.files..])
      == Elements(s.filesAfter[low.files..]);
    assert Elements(s.extensionsAfter[top.extensions..]) + Elements(t.extensionsAfter[low.extensions..])
      == Elements(s.extensionsAfter[low.extensions..]);
    TakeTake(s.now.strings, low.strings, top.strings);
    TakeTake(s.now.messages, low.messages, top.messages);
    TakeTake(s.now.fileTables, low.fileTables, top.fileTables);
    TakeTake(s.now.allocations, low.allocations, top.allocations);
  }

  /** A rollback restores the top saved contents and keeps every lower checkpoint valid. */
  lemma {:induction false} RollbackConsistent(s: State, base: nat, saved: seq<Contents>)
    requires Consistent(s, base, saved) && saved != []
    ensures InRange(s, s.checkpoints[|s.checkpoints| - 1])
    ensures RollbackToLastCheckpoint(s).now == saved[|saved| - 1]
    ensures Consistent(RollbackToLastCheckpoint(s), base, saved[..|saved| - 1])
  {
    var n := |saved| - 1;
    assert Recovers(s, s.checkpoints[base + n], saved[n]);
    var t := RollbackToLastCheckpoint(s);
    forall k | 0 <= k < n
      ensures Recovers(t, t.checkpoints[base + k], saved[k])
    {
      assert Recovers(s, s.checkpoints[base + k], saved[k]);
      LowerSurvivesRollback(s, s.checkpoints[base + k], saved[k]);
    }
  }

  lemma MapInsertMinus<K, V>(m: map<K, V>, x: K, v: V, q: seq<K>, i: nat)
    requires x !in m && i <= |q|
    ensures m[x := v] - Elements((q + [x])[i..]) == m - Elements(q[i..])
  {
    assert (q + [x])[i..] == q[i..] + [x];
    assert Elements((q + [x])[i..]) == Elements(q[i..]) + {x};
  }

  // ----- runs -----

  datatype Op =
    | PushCheckpoint
    | ClearTop
    | RollbackTop
    | InsertSymbol(name: string, symbol: Entry<Symbol>)
    | InsertFile(fileName: string, file: Entry<FileProto>)
    | InsertExtension(key: ExtensionKey, field: Pointer)
    | NewString(value: string)
    | NewMessage
    | NewFileTables
    | NewBytes(size: nat)

  predicate IsPop(op: Op) {
    op.ClearTop? || op.RollbackTop?
  }

  /** One operation; a pop is possible only on a non-empty stack whose top counts are in range. */
  predicate CanStep(s: State, op: Op) {
    IsPop(op) ==> s.checkpoints != [] && InRange(s, s.checkpoints[|s.checkpoints| - 1])
  }

  function Step(s: State, op: Op): State
    requires CanStep(s, op)
  {
    match op
    case PushCheckpoint => AddCheckpoint(s)
    case ClearTop => ClearLastCheckpoint(s)
    case RollbackTop => RollbackToLastCheckpoint(s)
    case InsertSymbol(name, e) => AddSymbol(s, name, e)
    case InsertFile(name, e) => AddFile(s, name, e)
    case InsertExtension(key, at) => AddExtension(s, key, at)
    case NewString(value) => AllocateString(s, value)
    case NewMessage => AllocateMessage(s)
    case NewFileTables => AllocateFileTables(s)
    case NewBytes(size) => AllocateBytes(s, size)
  }

  /** A whole run; None if some operation was impossible. */
  function Run(s: State, ops: seq<Op>): Option<State>
    decreases |ops|
  {
    if ops == [] then Some(s)
    else if CanStep(s, ops[0]) then Run(Step(s, ops[0]), ops[1..])
    else None
  }

  /** Every pop of `ops` closes a push of `ops` or one of `depth` earlier ones, all closed at the end. */
  predicate WellNested(depth: nat, ops: seq<Op>)
    decreases |ops|
  {
    if ops == [] then depth == 0
    else if IsPop(ops[0]) then depth > 0 && WellNested(depth - 1, ops[1..])
    else WellNested(if ops[0].PushCheckpoint? then depth + 1 else depth, ops[1..])
  }

  lemma GrowthKeepsRecovery(s: State, op: Op, cp: CheckPoint, c: Contents)
    requires Recovers(s, cp, c) && !IsPop(op)
    ensures Recovers(Step(s, op), cp, c)
  {
    match op
    case InsertSymbol(name, e) =>
      if name !in s.now.symbols {
        MapInsertMinus(s.now.symbols, name, e, s.symbolsAfter, cp.symbols);
      }
    case InsertFile(name, e) =>
      if name !in s.now.files {
        MapInsertMinus(s.now.files, name, e, s.filesAfter, cp.files);
      }
    case InsertExtension(key, at) =>
      if key !in s.now.extensions {
        MapInsertMinus(s.now.extensions, key, at, s.extensionsAfter, cp.extensions);
      }
    case NewString(value) =>
      assert Step(s, op).now.strings[..cp.strings] == s.now.strings[..cp.strings];
    case _ =>
  }

  lemma GrowthConsistent(s: State, op: Op, base: nat, saved: seq<Contents>)
    requires Consistent(s, base, saved) && !IsPop(op) && !op.PushCheckpoint?
    ensures Consistent(Step(s, op), base, saved)
  {
    forall k | 0 <= k < |saved|
      ensures Recovers(Step(s, op), Step(s, op).checkpoints[base + k], saved[k])
    {
      assert Recovers(s, s.checkpoints[base + k], saved[k]);
      GrowthKeepsRecovery(s, op, s.checkpoints[base + k], saved[k]);
    }
  }

  /** What the pending vectors hold below the lowest of the checkpoints above `base`. */
  predicate KeepsPending(s: State, t: State, base: nat)
    requires base < |s.checkpoints| && InRange(s, s.checkpoints[base])
  {
    var cp := s.checkpoints[base];
    && base < |t.checkpoints|
    && t.checkpoints[..base + 1] == s.checkpoints[..base + 1]
    && InRange(t, cp)
    && t.symbolsAfter[..cp.symbols] == s.symbolsAfter[..cp.symbols]
    && t.filesAfter[..cp.files] == s.filesAfter[..cp.files]
    && t.extensionsAfter[..cp.extensions] == s.extensionsAfter[..cp.extensions]
    && t.next >= s.next
  }

  /** The stack of saved contents after one step. */
  ghost function SavedAfter(s: State, saved: seq<Contents>, op: Op): seq<Contents>
    requires IsPop(op) ==> saved != []
  {
    if IsPop(op) then saved[..|saved| - 1]
    else if op.PushCheckpoint? then saved + [s.now]
    else saved
  }

  /** Each operation keeps the saved contents of the remaining checkpoints recoverable. */
  lemma StepConsistent(s: State, base: nat, saved: seq<Contents>, op: Op)
    requires Consistent(s, base, saved) && (IsPop(op) ==> saved != [])
    ensures CanStep(s, op)
    ensures Consistent(Step(s, op), base, SavedAfter(s, saved, op))
    ensures op.RollbackTop? ==> Step(s, op).now == saved[|saved| - 1]
    ensures Step(s, op).next >= s.next
  {
    hide Undone;
    match op {
      case PushCheckpoint => CheckpointConsistent(s, base, saved);
      case ClearTop =>
        assert Recovers(s, s.checkpoints[base + (|saved| - 1)], saved[|saved| - 1]);
        ClearConsistent(s, base, saved);
      case RollbackTop => RollbackConsistent(s, base, saved);
      case _ => GrowthConsistent(s, op, base, saved);
    }
  }

  /** A step that does not pop the checkpoint at `base` keeps what is pending below it. */
  lemma StepKeepsPending(s: State, base: nat, op: Op)
    requires base < |s.checkpoints| && InRange(s, s.checkpoints[base])
    requires IsPop(op) ==> base < |s.checkpoints| - 1 && CanStep(s, op)
    requires IsPop(op) ==> NotAbove(s.checkpoints[base], s.checkpoints[|s.checkpoints| - 1])
    ensures KeepsPending(s, Step(s, op), base)
  {
  }

  /** A well-nested run above one saved checkpoint never gets stuck and keeps that checkpoint recoverable. */
  lemma {:induction false} RunKeepsLowest(s: State, base: nat, saved: seq<Contents>, ops: seq<Op>)
    requires saved != [] && Consistent(s, base, saved) && WellNested(|saved| - 1, ops)
    ensures Recovers(s, s.checkpoints[base], saved[0])
    ensures Run(s, ops).Some?
    ensures Consistent(Run(s, ops).value, base, saved[..1])
    ensures KeepsPending(s, Run(s, ops).value, base)
    decreases |ops|
  {
    assert Recovers(s, s.checkpoints[base + 0], saved[0]);
    if ops == [] {
      assert saved[..1] == saved;
    } else {
      hide Undone;
      StepConsistent(s, base, saved, ops[0]);
      StepKeepsPending(s, base, ops[0]);
      var t := Step(s, ops[0]);
      var saved' := SavedAfter(s, saved, ops[0]);
      RunKeepsLowest(t, base, saved', ops[1..]);
      assert saved'[..1] == saved[..1];
      KeepsPendingTransitive(s, t, Run(s, ops).value, base);
    }
  }

  lemma KeepsPendingTransitive(s: State, t: State, u: State, base: nat)
    requires base < |s.checkpoints| && InRange(s, s.checkpoints[base])
    requires KeepsPending(s, t, base) && KeepsPending(t, u, base)
    ensures KeepsPending(s, u, base)
  {
  }

  /**
   Nested rollback is exact. From any state whatever, after a checkpoint, any well-nested run of
   additions, allocations and inner checkpoints (cleared or rolled back), the rollback of that
   checkpoint is possible and gives the state back; only the supply of fresh blocks has moved on.
   */
  lemma {:induction false} NestedRollbackExact(s: State, ops: seq<Op>)
    requires WellNested(0, ops)
    ensures Run(s, [PushCheckpoint] + ops).Some?
    ensures CanStep(Run(s, [PushCheckpoint] + ops).value, RollbackTop)
    ensures var t := Step(Run(s, [PushCheckpoint] + ops).value, RollbackTop);
            t == s.(next := t.next) && t.next >= s.next
  {
    var base := |s.checkpoints|;
    var s1 := AddCheckpoint(s);
    UndoneNow(s);
    assert Consistent(s1, base, [s.now]);
    RunKeepsLowest(s1, base, [s.now], ops);
    assert ([PushCheckpoint] + ops)[1..] == ops;
    var u := Run(s1, ops).value;
    assert [s.now][..1] == [s.now];
    RollbackConsistent(u, base, [s.now]);
    hide Consistent, Undone;
    RollbackMeetsPush(s, u);
  }

  /** The parts of the state outside the contents come back by truncation. */
  lemma RollbackMeetsPush(s: State, u: State)
    requires |u.checkpoints| == |s.checkpoints| + 1
    requires InRange(AddCheckpoint(s), AddCheckpoint(s).checkpoints[|s.checkpoints|])
    requires KeepsPending(AddCheckpoint(s), u, |s.checkpoints|)
    requires InRange(u, u.checkpoints[|s.checkpoints|])
    ensures var t := RollbackToLastCheckpoint(u);
            t == s.(now := t.now, next := t.next) && t.next >= s.next
  {
    var base := |s.checkpoints|;
    var s1 := AddCheckpoint(s);
    assert u.checkpoints[..base + 1][base] == s1.checkpoints[..base + 1][base];
    assert u.checkpoints[..base] == u.checkpoints[..base + 1][..base] == s1.checkpoints[..base + 1][..base]
      == s.checkpoints;
    assert s1.symbolsAfter[..|s.symbolsAfter|] == s.symbolsAfter;
    assert s1.filesAfter[..|s.filesAfter|] == s.filesAfter;
    assert s1.extensionsAfter[..|s.extensionsAfter|] == s.extensionsAfter;
  }

  // ----- nothing in the tables dangles -----

  /**
   Every key of a table lies in an owned string that holds it, and every entity a table maps to
   lies in an owned block; blocks handed out so far are below the next one.
   */
  ghost predicate Owned(c: Contents, next: Pointer) {
    && (forall n | n in c.symbols :: OwnedEntry(c, n, c.symbols[n].key, c.symbols[n].at))
    && (forall n | n in c.files :: OwnedEntry(c, n, c.files[n].key, c.files[n].at))
    && (forall k | k in c.extensions :: c.extensions[k] in c.allocations)
    && (forall p | p in c.allocations :: p < next)
  }

  ghost predicate OwnedEntry(c: Contents, name: string, key: Cell, at: Pointer) {
    key in c.strings && key.value == name && at in c.allocations
  }

  /** What an addition owes: its key and its entity were allocated before it. */
  ghost predicate AllocatedFirst(s: State, op: Op) {
    match op
    case InsertSymbol(name, e) => OwnedEntry(s.now, name, e.key, e.at)
    case InsertFile(name, e) => OwnedEntry(s.now, name, e.key, e.at)
    case InsertExtension(key, at) => at in s.now.allocations
    case _ => true
  }

  /**
   The invariant of the tables: consistent checkpoints, and no dangling key or entity now or in any saved contents.
   */
  ghost predicate Sound(s: State, saved: seq<Contents>) {
    && Consistent(s, 0, saved)
    && Owned(s.now, s.next)
    && forall k | 0 <= k < |saved| :: Owned(saved[k], s.next)
  }

  lemma OwnedLater(c: Contents, n: Pointer, m: Pointer)
    requires Owned(c, n) && n <= m
    ensures Owned(c, m)
  {
  }

  lemma GrowthOwned(s: State, op: Op)
    requires Owned(s.now, s.next) && AllocatedFirst(s, op) && !IsPop(op)
    ensures Owned(Step(s, op).now, Step(s, op).next)
    ensures Step(s, op).next >= s.next
  {
  }

  /** Each operation keeps the invariant of the tables, whatever the depth of the stack. */
  lemma StepSound(s: State, saved: seq<Contents>, op: Op)
    requires Sound(s, saved) && AllocatedFirst(s, op) && (IsPop(op) ==> saved != [])
    ensures CanStep(s, op)
    ensures Sound(Step(s, op), SavedAfter(s, saved, op))
    ensures op.RollbackTop? ==> Step(s, op).now == saved[|saved| - 1]
  {
    StepConsistent(s, 0, saved, op);
    var t := Step(s, op);
    if !IsPop(op) {
      GrowthOwned(s, op);
    }
    forall k | 0 <= k < |saved|
      ensures Owned(saved[k], t.next)
    {
      OwnedLater(saved[k], s.next, t.next);
    }
  }

  /** A run in which every addition is of allocated things. */
  ghost predicate AllocatesFirst(s: State, ops: seq<Op>)
    decreases |ops|
  {
    ops == [] || (AllocatedFirst(s, ops[0]) && (CanStep(s, ops[0]) ==> AllocatesFirst(Step(s, ops[0]), ops[1..])))
  }

  /** No pop of `ops` finds an empty stack, starting from `depth` checkpoints. */
  predicate NeverUnderflows(depth: nat, ops: seq<Op>)
    decreases |ops|
  {
    if ops == [] then true
    else if IsPop(ops[0]) then depth > 0 && NeverUnderflows(depth - 1, ops[1..])
    else NeverUnderflows(if ops[0].PushCheckpoint? then depth + 1 else depth, ops[1..])
  }

  /**
   In every run that allocates before it adds and pops only what it pushed, no operation gets stuck,
   and afterwards no key or entity in a table dangles, however many rollbacks have freed memory.
   */
  lemma {:induction false} NothingDangles(s: State, saved: seq<Contents>, ops: seq<Op>)
    requires Sound(s, saved) && AllocatesFirst(s, ops) && NeverUnderflows(|saved|, ops)
    ensures Run(s, ops).Some? && Owned(Run(s, ops).value.now, Run(s, ops).value.next)
    decreases |ops|
  {
    if ops != [] {
      StepSound(s, saved, ops[0]);
      NothingDangles(Step(s, ops[0]), SavedAfter(s, saved, ops[0]), ops[1..]);
    }
  }
}
