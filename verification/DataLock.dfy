/** The data lock as it is declared: a plain lock that its holder cannot take again.
    (backend/services/fetchers/_store.py, _data_lock and bump_data_version;
     the writers that bump the version while they hold it) */
module DataLock {
  type Thread = nat

  /** What a thread does next with the shared store. */
  datatype Action = Acquire | Release | Store | Bump | ReadVersion | ReadData

  /** inject_data, remove_injected and the telemetry writers: the version bump, which
      takes the lock itself, is called inside the locked block. */
  const BUMP_INSIDE: seq<Action> := [Acquire, Store, Acquire, Bump, Release, Release]

  /** inject_layer_data and the fetch tiers: the bump comes after the locked block. */
  const BUMP_AFTER: seq<Action> := [Acquire, Store, Release, Acquire, Bump, Release]

  /** A live-data reader: the ETag first, then the data. */
  const READER: seq<Action> := [Acquire, ReadVersion, Release, Acquire, ReadData, Release]

  datatype Option<T> = None | Some(value: T)

  datatype State = State(holder: Option<Thread>, todo: map<Thread, seq<Action>>, version: nat, stores: nat)

  /** A lock is free for whoever comes; nobody can take it twice. */
  predicate Enabled(s: State, t: Thread) {
    && t in s.todo && s.todo[t] != []
    && match s.todo[t][0]
       case Acquire => s.holder == None
       case _ => true
  }

  function Step(s: State, t: Thread): State {
    if !Enabled(s, t) then s
    else
      var s1 := s.(todo := s.todo[t := s.todo[t][1..]]);
      match s.todo[t][0]
      case Acquire => s1.(holder := Some(t))
      case Release => s1.(holder := None)
      case Store => s1.(stores := s.stores + 1)
      case Bump => s1.(version := s.version + 1)
      case ReadVersion => s1
      case ReadData => s1
  }

  function Run(s: State, schedule: seq<Thread>): State {
    if schedule == [] then s else Step(Run(s, schedule[..|schedule| - 1]), schedule[|schedule| - 1])
  }

  /** Follows the lock: everything but an acquire is done with the lock held, and the
      lock is released at most as often as it was taken. */
  predicate Locked(todo: seq<Action>, depth: nat) {
    todo == [] ||
    match todo[0]
    case Acquire => Locked(todo[1..], depth + 1)
    case Release => depth > 0 && Locked(todo[1..], depth - 1)
    case _ => depth > 0 && Locked(todo[1..], depth)
  }

  lemma ProgramsAreLocked()
    ensures Locked(BUMP_INSIDE, 0) && Locked(BUMP_AFTER, 0) && Locked(READER, 0)
  {
    assert Locked(BUMP_INSIDE[6..], 0) && Locked(BUMP_INSIDE[5..], 1) && Locked(BUMP_INSIDE[4..], 2);
    assert Locked(BUMP_INSIDE[3..], 2) && Locked(BUMP_INSIDE[2..], 1) && Locked(BUMP_INSIDE[1..], 1);
    assert Locked(BUMP_AFTER[6..], 0) && Locked(BUMP_AFTER[5..], 1) && Locked(BUMP_AFTER[4..], 1);
    assert Locked(BUMP_AFTER[3..], 0) && Locked(BUMP_AFTER[2..], 1) && Locked(BUMP_AFTER[1..], 1);
    assert Locked(READER[6..], 0) && Locked(READER[5..], 1) && Locked(READER[4..], 1);
    assert Locked(READER[3..], 0) && Locked(READER[2..], 1) && Locked(READER[1..], 1);
  }

  /** Only the holder is past an acquire: everyone else has to take the lock first. */
  ghost predicate Inv(s: State) {
    forall t :: t in s.todo ==>
      if s.holder == Some(t) then Locked(s.todo[t], 1) else Locked(s.todo[t], 0)
  }

  /** The holder is about to take the lock it already holds. */
  ghost predicate SelfBlocked(s: State) {
    s.holder.Some? && s.holder.value in s.todo
    && s.todo[s.holder.value] != [] && s.todo[s.holder.value][0] == Acquire
  }

  lemma StepKeeps(s: State, t: Thread)
    requires Inv(s)
    ensures Inv(Step(s, t))
  {
  }

  lemma {:induction false} RunKeeps(s: State, schedule: seq<Thread>)
    requires Inv(s)
    ensures Inv(Run(s, schedule))
  {
    if schedule != [] {
      RunKeeps(s, schedule[..|schedule| - 1]);
      StepKeeps(Run(s, schedule[..|schedule| - 1]), schedule[|schedule| - 1]);
    }
  }

  /** From then on no schedule lets any thread do anything at all: no version is
      bumped, no data stored, no ETag computed. */
  lemma {:induction false} NothingMovesAgain(s: State, schedule: seq<Thread>)
    requires Inv(s) && SelfBlocked(s)
    ensures Run(s, schedule) == s
  {
    if schedule != [] {
      NothingMovesAgain(s, schedule[..|schedule| - 1]);
      var t := schedule[|schedule| - 1];
      if t != s.holder.value && t in s.todo {
        assert Locked(s.todo[t], 0);
      }
    }
  }

  /** A writer that bumps inside its locked block reaches that state with its first
      two actions: its data is stored, and the version is never bumped again. */
  lemma BumpInsideBlocks(s: State, t: Thread, schedule: seq<Thread>)
    requires Inv(s) && s.holder == None && t in s.todo && s.todo[t] == BUMP_INSIDE
    ensures var stuck := Step(Step(s, t), t);
            && SelfBlocked(stuck) && stuck.stores == s.stores + 1
            && Run(stuck, schedule) == stuck && stuck.version == s.version
  {
    var s1 := Step(s, t);
    assert s1.todo[t] == [Store, Acquire, Bump, Release, Release];
    var s2 := Step(s1, t);
    StepKeeps(s, t);
    StepKeeps(s1, t);
    assert s2.todo[t] == [Acquire, Bump, Release, Release];
    NothingMovesAgain(s2, schedule);
  }

  /** With the bump after the block the holder never waits for itself. */
  ghost predicate Releases(todo: seq<Action>) {
    forall i :: 0 <= i < |todo| && todo[i] == Acquire ==> i == 0 || todo[i - 1] == Release
  }

  /** No thread is left asking for a lock it holds: programs in which every acquire
      follows a release are never self-blocked, whatever the schedule. */
  ghost predicate CalmInv(s: State) {
    && (forall t :: t in s.todo ==> Releases(s.todo[t]))
    && (s.holder.Some? && s.holder.value in s.todo && s.todo[s.holder.value] != []
        ==> s.todo[s.holder.value][0] != Acquire)
  }

  lemma {:induction false} ReleasedFirstNeverBlocks(s: State, schedule: seq<Thread>)
    requires CalmInv(s)
    ensures CalmInv(Run(s, schedule)) && !SelfBlocked(Run(s, schedule))
  {
    if schedule != [] {
      ReleasedFirstNeverBlocks(s, schedule[..|schedule| - 1]);
      CalmStep(Run(s, schedule[..|schedule| - 1]), schedule[|schedule| - 1]);
    }
  }

  lemma CalmStep(s: State, t: Thread)
    requires CalmInv(s)
    ensures CalmInv(Step(s, t))
  {
    if Enabled(s, t) {
      var todo := s.todo[t];
      assert forall i :: 0 <= i < |todo[1..]| ==> todo[1..][i] == todo[i + 1];
      forall i | 0 <= i < |todo[1..]| && todo[1..][i] == Acquire
        ensures i == 0 || todo[1..][i - 1] == Release
      {
        assert todo[i + 1] == Acquire;
      }
    }
  }

  lemma CalmPrograms()
    ensures Releases(BUMP_AFTER) && Releases(READER) && !Releases(BUMP_INSIDE)
  {
    assert BUMP_INSIDE[2] == Acquire && BUMP_INSIDE[1] == Store;
  }
}
