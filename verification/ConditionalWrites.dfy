/**
 The conditional-write protocol: any number of writers over one versioned row. A writer loads the
 row with its version, computes its change from what it read, and saves on condition that the
 version has not moved. The store decides that condition at the save, and never reuses a version.
 A writer that loses the race computes again, up to the attempts it has.

 The protocol does not look inside a row or a change, so it is stated over any of them.
 */
module ConditionalWrites {
  import opened Outcomes

  // --- The versioned row ------------------------------------------------------------------------------

  datatype Row<T> = Row(value: T, etag: nat)

  datatype Answer = Updated | Mismatch | NotFound

  /** The store's answer to a save made against `expected`, decided when it is made. */
  function SaveAnswer<T>(stored: Option<Row<T>>, expected: Option<nat>): Answer {
    match (stored, expected)
    case (None, None) => Updated
    case (None, Some(_)) => NotFound
    case (Some(_), None) => Mismatch
    case (Some(row), Some(etag)) => if row.etag == etag then Updated else Mismatch
  }

  function ETag<T>(row: Option<Row<T>>): Option<nat> {
    if row.None? then None else Some(row.value.etag)
  }

  function Stored<T>(row: Option<Row<T>>): Option<T> {
    if row.None? then None else Some(row.value.value)
  }

  // --- Any number of writers, interleaved -------------------------------------------------------------

  /** The writers: what each makes of the row it read, under an id minted for the try, and how many
      tries it has. */
  datatype Writers<!T, !E> = Writers(change: (nat, Option<T>, nat) -> Result<T, E>, attempts: seq<nat>)

  /** Where a writer stands. `lost` counts the races it has lost. The rest count the commits the row
      had seen: `began` when the writer first loaded it, `since` when it last did, and `until` when it
      gave up. */
  datatype Phase<T, E> =
    | Idle(lost: nat, began: nat)
    | Loaded(lost: nat, began: nat, row: Option<Row<T>>, since: nat)
    | Committed(at: nat)
    | Refused(refusal: E)
    | GaveUp(began: nat, until: nat)

  datatype Commit = Commit(who: nat, id: nat)

  datatype System<T, E> = System(row: Option<Row<T>>, minted: nat, phases: seq<Phase<T, E>>, log: seq<Commit>)

  datatype Act = Load(who: nat) | Save(who: nat, id: nat)

  function Next<T, E>(writers: Writers<T, E>, sys: System<T, E>, act: Act): System<T, E>
    requires |sys.phases| == |writers.attempts|
  {
    if act.who >= |sys.phases| then sys
    else match (act, sys.phases[act.who])
      case (Load(who), Idle(lost, began)) =>
        sys.(phases := sys.phases[who := Loaded(lost, if lost == 0 then |sys.log| else began, sys.row, |sys.log|)])
      case (Save(who, id), Loaded(lost, began, row, since)) => (
        match writers.change(who, Stored(row), id)
        case Err(refusal) => sys.(phases := sys.phases[who := Refused(refusal)])
        case Ok(value) =>
          if SaveAnswer(sys.row, ETag(row)) == Updated then
            System(Some(Row(value, sys.minted)), sys.minted + 1,
                   sys.phases[who := Committed(|sys.log|)], sys.log + [Commit(who, id)])
          else
            sys.(phases := sys.phases[who :=
              if lost + 1 < writers.attempts[who] then Idle(lost + 1, began) else GaveUp(began, |sys.log|)]))
      case _ => sys
  }

  function Run<T, E>(writers: Writers<T, E>, start: System<T, E>, acts: seq<Act>): (sys: System<T, E>)
    requires |start.phases| == |writers.attempts|
    ensures |sys.phases| == |writers.attempts|
  {
    if acts == [] then start
    else Next(writers, Run(writers, start, acts[..|acts| - 1]), acts[|acts| - 1])
  }

  /** A row no writer has read yet. */
  ghost predicate Initial<T, E>(writers: Writers<T, E>, sys: System<T, E>) {
    && |sys.phases| == |writers.attempts|
    && (forall who :: 0 <= who < |sys.phases| ==> sys.phases[who] == Idle(0, 0) && writers.attempts[who] > 0)
    && sys.log == []
    && (sys.row.Some? ==> sys.row.value.etag < sys.minted)
  }

  /** The committed writers' changes applied one after another, in commit order, each to the row
      the one before it left. */
  function Replay<T, E>(writers: Writers<T, E>, start: Option<T>, log: seq<Commit>): Option<T> {
    if log == [] then start
    else
      var before := Replay(writers, start, log[..|log| - 1]);
      match writers.change(log[|log| - 1].who, before, log[|log| - 1].id)
      case Err(_) => before
      case Ok(value) => Some(value)
  }

  /** Every logged change was accepted on the row it was applied to. */
  ghost predicate Accepted<T, E>(writers: Writers<T, E>, start: Option<T>, log: seq<Commit>) {
    forall i :: 0 <= i < |log| ==> writers.change(log[i].who, Replay(writers, start, log[..i]), log[i].id).Ok?
  }

  /** The serial account of a system: the row holds the replayed log, and a writer is in the log
      once if it committed and nowhere if it did not. */
  ghost predicate Serial<T, E>(writers: Writers<T, E>, start: Option<T>, sys: System<T, E>) {
    && |sys.phases| == |writers.attempts|
    && Stored(sys.row) == Replay(writers, start, sys.log)
    && Accepted(writers, start, sys.log)
    && (forall i :: 0 <= i < |sys.log| ==> sys.log[i].who < |sys.phases|)
    && (forall who :: 0 <= who < |sys.phases| && sys.phases[who].Committed? ==> sys.phases[who].at < |sys.log|)
    && (forall who, i :: 0 <= who < |sys.phases| && 0 <= i < |sys.log| ==>
          (sys.log[i].who == who <==> sys.phases[who] == Committed(i)))
  }

  /** What a writer read is the row itself exactly while nobody has committed since; once somebody
      has, the row's version is one the writer cannot name. */
  ghost predicate Tracks<T, E>(sys: System<T, E>, phase: Phase<T, E>) {
    phase.Loaded? ==>
      && phase.since <= |sys.log|
      && (phase.since == |sys.log| ==> phase.row == sys.row)
      && (phase.since < |sys.log| ==>
            && sys.row.Some?
            && (phase.row.Some? ==> phase.row.value.etag < sys.row.value.etag))
  }

  /** Each race a writer lost was lost to another commit made since its first load: there are at least as
      many of those as lost races, and as many as its attempts once it gives up. */
  ghost predicate LossesAccounted<T, E>(attempts: nat, sys: System<T, E>, phase: Phase<T, E>) {
    match phase
    case Idle(lost, began) => lost < attempts && (lost > 0 ==> began + lost <= |sys.log|)
    case Loaded(lost, began, _, since) => lost < attempts && began + lost <= since
    case GaveUp(began, until) => began + attempts <= until <= |sys.log|
    case _ => true
  }

  ghost predicate Inv<T, E>(writers: Writers<T, E>, start: Option<T>, sys: System<T, E>) {
    && Serial(writers, start, sys)
    && (sys.row.Some? ==> sys.row.value.etag < sys.minted)
    && (forall who :: 0 <= who < |sys.phases| ==>
          Tracks(sys, sys.phases[who]) && LossesAccounted(writers.attempts[who], sys, sys.phases[who]))
  }

  /** A save lands exactly when nobody committed since its load. A lost race has commits in between,
      none of them the loser's own, and the row it was lost on is there. */
  lemma RaceLostToARival<T, E>(writers: Writers<T, E>, start: Option<T>, sys: System<T, E>, who: nat)
    requires Inv(writers, start, sys) && who < |sys.phases| && sys.phases[who].Loaded?
    ensures var phase := sys.phases[who];
            var answer := SaveAnswer(sys.row, ETag(phase.row));
            && (answer == Updated <==> phase.since == |sys.log|)
            && answer != NotFound
            && (forall i :: phase.since <= i < |sys.log| ==> sys.log[i].who != who)
  {
    assert Tracks(sys, sys.phases[who]);
  }

  lemma ReplayAppended<T, E>(writers: Writers<T, E>, start: Option<T>, log: seq<Commit>, commit: Commit)
    requires Accepted(writers, start, log)
    requires writers.change(commit.who, Replay(writers, start, log), commit.id).Ok?
    ensures Replay(writers, start, log + [commit]) ==
            Some(writers.change(commit.who, Replay(writers, start, log), commit.id).value)
    ensures Accepted(writers, start, log + [commit])
  {
    var longer := log + [commit];
    assert longer[..|log|] == log;
    forall i | 0 <= i < |longer|
      ensures writers.change(longer[i].who, Replay(writers, start, longer[..i]), longer[i].id).Ok?
    {
      if i < |log| { assert longer[..i] == log[..i]; }
    }
  }

  lemma PhaseChangeKeepsInv<T, E>(writers: Writers<T, E>, start: Option<T>, sys: System<T, E>, who: nat,
                                  phase: Phase<T, E>)
    requires Inv(writers, start, sys) && who < |sys.phases|
    requires !sys.phases[who].Committed? && !phase.Committed?
    requires Tracks(sys, phase) && LossesAccounted(writers.attempts[who], sys, phase)
    ensures Inv(writers, start, sys.(phases := sys.phases[who := phase]))
  {
  }

  function AfterCommit<T, E>(sys: System<T, E>, who: nat, id: nat, value: T): System<T, E>
    requires who < |sys.phases|
  {
    System(Some(Row(value, sys.minted)), sys.minted + 1, sys.phases[who := Committed(|sys.log|)],
        sys.log + [Commit(who, id)])
  }

  lemma CommitKeepsSerial<T, E>(writers: Writers<T, E>, start: Option<T>, sys: System<T, E>, who: nat, id: nat,
                                value: T)
    requires Serial(writers, start, sys) && who < |sys.phases| && !sys.phases[who].Committed?
    requires writers.change(who, Stored(sys.row), id) == Ok(value)
    ensures Serial(writers, start, AfterCommit(sys, who, id, value))
  {
    hide Replay, Accepted;
    ReplayAppended(writers, start, sys.log, Commit(who, id));
    var after := AfterCommit(sys, who, id, value);
    forall other, i | 0 <= other < |sys.phases| && 0 <= i < |after.log|
      ensures after.log[i].who == other <==> after.phases[other] == Committed(i)
    {
      assert i < |sys.log| ==> after.log[i] == sys.log[i];
    }
  }

  lemma CommitKeepsTracks<T, E>(attempts: nat, sys: System<T, E>, who: nat, id: nat, value: T, other: nat)
    requires who < |sys.phases| && other < |sys.phases| && (sys.row.Some? ==> sys.row.value.etag < sys.minted)
    requires Tracks(sys, sys.phases[other]) && LossesAccounted(attempts, sys, sys.phases[other])
    ensures var after := AfterCommit(sys, who, id, value);
            Tracks(after, after.phases[other]) && LossesAccounted(attempts, after, after.phases[other])
  {
  }

  lemma CommitKeepsInv<T, E>(writers: Writers<T, E>, start: Option<T>, sys: System<T, E>, who: nat, id: nat, value: T)
    requires Inv(writers, start, sys) && who < |sys.phases| && !sys.phases[who].Committed?
    requires writers.change(who, Stored(sys.row), id) == Ok(value)
    ensures Inv(writers, start, AfterCommit(sys, who, id, value))
  {
    CommitKeepsSerial(writers, start, sys, who, id, value);
    assert |sys.phases| == |writers.attempts|;
    hide Serial, Tracks, LossesAccounted;
    var after := AfterCommit(sys, who, id, value);
    forall other | 0 <= other < |sys.phases|
      ensures Tracks(after, after.phases[other]) && LossesAccounted(writers.attempts[other], after, after.phases[other])
    {
      CommitKeepsTracks(writers.attempts[other], sys, who, id, value, other);
    }
  }

  lemma PhaseFacts<T, E>(writers: Writers<T, E>, start: Option<T>, sys: System<T, E>, who: nat)
    requires Inv(writers, start, sys) && who < |sys.phases|
    ensures |sys.phases| == |writers.attempts|
    ensures Tracks(sys, sys.phases[who]) && LossesAccounted(writers.attempts[who], sys, sys.phases[who])
  {
  }

  lemma NextKeepsInv<T, E>(writers: Writers<T, E>, start: Option<T>, sys: System<T, E>, act: Act)
    requires Inv(writers, start, sys)
    ensures Inv(writers, start, Next(writers, sys, act))
  {
    assert |sys.phases| == |writers.attempts|;
    hide Inv, Serial;
    if act.who < |sys.phases| {
      var who, phase := act.who, sys.phases[act.who];
      PhaseFacts(writers, start, sys, who);
      if act.Save? && phase.Loaded? {
        RaceLostToARival(writers, start, sys, who);
        var changed := writers.change(who, Stored(phase.row), act.id);
        if changed.Ok? && SaveAnswer(sys.row, ETag(phase.row)) == Updated {
          CommitKeepsInv(writers, start, sys, who, act.id, changed.value);
        } else {
          PhaseChangeKeepsInv(writers, start, sys, who, Next(writers, sys, act).phases[who]);
        }
      } else if act.Load? && phase.Idle? {
        PhaseChangeKeepsInv(writers, start, sys, who, Next(writers, sys, act).phases[who]);
      }
    }
  }

  lemma {:induction false} RunKeepsInv<T, E>(writers: Writers<T, E>, start: System<T, E>, acts: seq<Act>)
    requires Initial(writers, start)
    ensures Inv(writers, Stored(start.row), Run(writers, start, acts))
  {
    if acts != [] {
      RunKeepsInv(writers, start, acts[..|acts| - 1]);
      NextKeepsInv(writers, Stored(start.row), Run(writers, start, acts[..|acts| - 1]), acts[|acts| - 1]);
    }
  }

  /** A writer that gave up did so after at least as many commits by others, between its first load and
      its last save, as it had attempts. */
  ghost predicate LostToRivals<T, E>(attempts: nat, sys: System<T, E>, who: nat)
    requires who < |sys.phases|
  {
    sys.phases[who].GaveUp? ==>
      var (began, until) := (sys.phases[who].began, sys.phases[who].until);
      && began + attempts <= until <= |sys.log|
      && forall i :: began <= i < until ==> sys.log[i].who != who
  }

  lemma GivingUpIsLostToRivals<T, E>(writers: Writers<T, E>, start: Option<T>, sys: System<T, E>, who: nat)
    requires Inv(writers, start, sys) && who < |sys.phases| && |sys.phases| == |writers.attempts|
    ensures LostToRivals(writers.attempts[who], sys, who)
  {
    PhaseFacts(writers, start, sys, who);
  }

  /** No interleaving loses a change: the stored row is the committed changes applied one after
      another; a writer that was refused or gave up left nothing; one that committed is there once;
      and giving up takes as many commits by others, between the writer's first load and its last save,
      as it had attempts. */
  lemma EveryRunIsSerial<T, E>(writers: Writers<T, E>, start: System<T, E>, acts: seq<Act>)
    requires Initial(writers, start)
    ensures var sys := Run(writers, start, acts);
            && Stored(sys.row) == Replay(writers, Stored(start.row), sys.log)
            && Accepted(writers, Stored(start.row), sys.log)
            && (forall i :: 0 <= i < |sys.log| ==> sys.log[i].who < |sys.phases|)
            && (forall who :: 0 <= who < |sys.phases| && sys.phases[who].Committed? ==> sys.phases[who].at < |sys.log|)
            && (forall who, i :: 0 <= who < |sys.phases| && 0 <= i < |sys.log| ==>
                  (sys.log[i].who == who <==> sys.phases[who] == Committed(i)))
            && (forall who :: 0 <= who < |sys.phases| ==> LostToRivals(writers.attempts[who], sys, who))
  {
    hide Run, Replay, Accepted, LostToRivals, Tracks, LossesAccounted;
    RunKeepsInv(writers, start, acts);
    var sys := Run(writers, start, acts);
    forall who | 0 <= who < |sys.phases| ensures LostToRivals(writers.attempts[who], sys, who) {
      GivingUpIsLostToRivals(writers, Stored(start.row), sys, who);
    }
  }

  lemma AcceptedShorter<T, E>(writers: Writers<T, E>, start: Option<T>, log: seq<Commit>)
    requires log != [] && Accepted(writers, start, log)
    ensures Accepted(writers, start, log[..|log| - 1])
    ensures var last, before := log[|log| - 1], Replay(writers, start, log[..|log| - 1]);
            && writers.change(last.who, before, last.id).Ok?
            && Replay(writers, start, log) == Some(writers.change(last.who, before, last.id).value)
  {
    var shorter := log[..|log| - 1];
    forall i | 0 <= i < |shorter|
      ensures writers.change(shorter[i].who, Replay(writers, start, shorter[..i]), shorter[i].id).Ok?
    {
      assert shorter[..i] == log[..i];
    }
  }

  /** Every accepted change of the writer's keeps the fact. */
  ghost predicate KeptBy<T(!new), E>(writers: Writers<T, E>, who: nat, fact: T -> bool) {
    forall before, id :: fact(before) && writers.change(who, Some(before), id).Ok? ==>
      fact(writers.change(who, Some(before), id).value)
  }

  /** A fact one committed change establishes and every accepted change keeps is true of the row
      from that commit on. */
  lemma {:induction false} FactSurvives<T(!new), E>(writers: Writers<T, E>, start: Option<T>, log: seq<Commit>,
                                                    at: nat, fact: T -> bool)
    requires at < |log| && Accepted(writers, start, log)
    requires fact(writers.change(log[at].who, Replay(writers, start, log[..at]), log[at].id).value)
    requires forall i :: at < i < |log| ==> KeptBy(writers, log[i].who, fact)
    ensures Replay(writers, start, log).Some? && fact(Replay(writers, start, log).value)
  {
    hide Accepted, Replay;
    var shorter, last := log[..|log| - 1], log[|log| - 1];
    AcceptedShorter(writers, start, log);
    if at < |shorter| {
      assert shorter[..at] == log[..at];
      FactSurvives(writers, start, shorter, at, fact);
      assert KeptBy(writers, log[|log| - 1].who, fact);
    }
  }
}
