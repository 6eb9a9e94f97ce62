/** The system calls of `publish` in `src/config.cpp`, one after another: what a run has done when it succeeds, and what
    it does when nothing stands in its way. */
module PublicationCalls {
  import opened Errors
  import opened Publication

  /** A call and the answer to it. */
  datatype Made = Made(place: Place, answer: Answer)

  /** The calls of a run. */
  function Calls(s: State, script: seq<Turn>, job: Job): seq<Made>
    requires Grounded(s, job)
    decreases |script|, Rank(s.place)
  {
    if s.place.Finished? then []
    else
      LostProgress(s, job);
      [Made(s.place, Head(script).answer)] + Calls(Next(s, Head(script), job), Tail(script), job)
  }

  /** The last calls are these, and all of them have been acknowledged. */
  ghost predicate EndsIn(calls: seq<Made>, places: seq<Place>) {
    && |calls| >= |places|
    && forall i :: 0 <= i < |places| ==>
         var call := calls[|calls| - |places| + i]; call.place == places[i] && call.answer.Done?
  }

  /** The file is synced and closed; it is renamed, or linked and its temporary entry removed; the directory is
      synced. */
  function Commit(force: bool): seq<Place> {
    [Syncing, Closing, Publishing] + (if force then [] else [Unlinking]) + [SyncingDirectory]
  }

  /** What is left of it from a place on. */
  function Remaining(p: Place, force: bool): seq<Place> {
    match p
    case Closing => [Closing, Publishing] + (if force then [] else [Unlinking]) + [SyncingDirectory]
    case Publishing => [Publishing] + (if force then [] else [Unlinking]) + [SyncingDirectory]
    case Unlinking => [Unlinking, SyncingDirectory]
    case SyncingDirectory => [SyncingDirectory]
    case _ => Commit(force)
  }

  lemma RemainingStep(p: Place, force: bool)
    requires p.Syncing? || p.Closing? || p.Publishing? || p.Unlinking?
    ensures var next := if p.Syncing? then Closing else if p.Closing? then Publishing
                        else if p.Publishing? && !force then Unlinking else SyncingDirectory;
            Remaining(p, force) == [p] + Remaining(next, force)
  {
  }

  lemma Prepended(first: Made, rest: seq<Made>, places: seq<Place>)
    requires EndsIn(rest, places)
    ensures EndsIn([first] + rest, places)
    ensures first.answer.Done? && |rest| == |places| ==> EndsIn([first] + rest, [first.place] + places)
  {
    var calls := [first] + rest;
    forall i | 0 <= i < |places|
      ensures calls[|calls| - |places| + i].place == places[i] && calls[|calls| - |places| + i].answer.Done?
    {
      assert calls[|calls| - |places| + i] == rest[|rest| - |places| + i];
    }
    if first.answer.Done? && |rest| == |places| {
      var more := [first.place] + places;
      forall i | 0 <= i < |more| ensures calls[i].place == more[i] && calls[i].answer.Done? {
        if i > 0 {
          assert calls[i] == rest[i - 1] && more[i] == places[i - 1];
        }
      }
    }
  }

  predicate Committing(p: Place) {
    p.Closing? || p.Publishing? || p.Unlinking? || p.SyncingDirectory?
  }

  /** Nothing is there before it is created, only a link is followed by the removal of its temporary entry, and the
      target is live from then on. */
  predicate InOrder(s: State, job: Job) {
    && (Before(s.place) ==> s.ours.None?) && (s.place.Unlinking? ==> !job.force)
    && (s.place.Unlinking? || s.place.SyncingDirectory? ==> s.live)
  }

  /** Where a call leads. */
  lemma WhereTo(s: State, t: Turn, job: Job)
    requires Grounded(s, job) && !s.place.Finished? && InOrder(s, job)
    ensures InOrder(Next(s, t, job), job)
    ensures var next := Next(s, t, job).place;
            && (next.Closing? ==> s.place.Syncing? && t.answer.Done?)
            && (next.Publishing? ==> s.place.Closing? && t.answer.Done?)
            && (next.Unlinking? ==> s.place.Publishing? && !job.force && t.answer.Done?)
            && (next.SyncingDirectory? ==>
                  t.answer.Done? && (if job.force then s.place.Publishing? else s.place.Unlinking?))
            && (Committing(s.place) ==> Committing(next) || next.Cleaning? || next.Finished?)
  {
    hide Interfere, TemporaryName;
  }

  /** How a run ends. */
  lemma WhereItEnds(s: State, t: Turn, job: Job)
    requires Grounded(s, job) && !s.place.Finished? && InOrder(s, job)
    ensures var next := Next(s, t, job);
            next.place.Finished? ==>
              && (next.place.result.Success? <==> s.place.SyncingDirectory? && t.answer.Done?)
              && (next.ours.None? || s.place.Cleaning? || (s.place.SyncingDirectory? && next.live))
    ensures s.place.SyncingDirectory? ==> Next(s, t, job).place.Finished?
  {
    hide Interfere, TemporaryName, WithFile, Unbound;
  }

  lemma {:induction false} CommittedCalls(s: State, script: seq<Turn>, job: Job)
    requires Grounded(s, job) && InOrder(s, job) && !s.place.Finished?
    requires Run(s, script, job).place.result.Success?
    ensures EndsIn(Calls(s, script, job), Remaining(s.place, job.force))
    ensures Committing(s.place) ==> |Calls(s, script, job)| == |Remaining(s.place, job.force)|
    decreases |script|, Rank(s.place)
  {
    hide Next, EndsIn, Remaining, InOrder;
    var t := Head(script);
    LostProgress(s, job);
    WhereTo(s, t, job);
    WhereItEnds(s, t, job);
    var next := Next(s, t, job);
    var rest := Calls(next, Tail(script), job);
    RunOne(s, script, job);
    if next.place.Finished? {
      RunFinished(next, Tail(script), job);
      assert Calls(s, script, job) == [Made(s.place, t.answer)];
      SyncedLast(s.place, t.answer, job.force);
    } else if next.place.Cleaning? {
      CleaningFails(next, Tail(script), job);
    } else {
      CommittedCalls(next, Tail(script), job);
      Prepended(Made(s.place, t.answer), rest, Remaining(next.place, job.force));
      if Committing(next.place) {
        RemainingStep(s.place, job.force);
      } else {
        NotYet(s.place, next.place, job.force);
      }
    }
  }

  lemma SyncedLast(p: Place, a: Answer, force: bool)
    requires p.SyncingDirectory? && a.Done?
    ensures EndsIn([Made(p, a)], Remaining(p, force)) && |Remaining(p, force)| == 1
  {
  }

  lemma NotYet(p: Place, next: Place, force: bool)
    requires !Committing(p) && !Committing(next)
    ensures Remaining(p, force) == Remaining(next, force)
  {
  }

  lemma {:induction false} LastCall(s: State, script: seq<Turn>, job: Job)
    requires Grounded(s, job) && InOrder(s, job) && !s.place.Finished?
    ensures var calls := Calls(s, script, job);
            && calls != []
            && (Run(s, script, job).place.result.Success? <==>
                  calls[|calls| - 1].place.SyncingDirectory? && calls[|calls| - 1].answer.Done?)
    decreases |script|, Rank(s.place)
  {
    hide Next, InOrder;
    var t := Head(script);
    LostProgress(s, job);
    WhereTo(s, t, job);
    WhereItEnds(s, t, job);
    RunOne(s, script, job);
    var next := Next(s, t, job);
    if next.place.Finished? {
      RunFinished(next, Tail(script), job);
      assert Calls(s, script, job) == [Made(s.place, t.answer)];
    } else {
      LastCall(next, Tail(script), job);
    }
  }

  /** A run succeeds if and only if it ends with the whole commit, every call of it acknowledged: the file synced and
      closed, the target renamed or linked, the temporary entry removed, and then the directory synced. */
  lemma SuccessIsCommitted(dir: Directory, sequence: nat, script: seq<Turn>, job: Job)
    ensures Run(Initial(dir, sequence), script, job).place.result.Success? <==>
              EndsIn(Calls(Initial(dir, sequence), script, job), Commit(job.force))
  {
    hide Next;
    var s := Initial(dir, sequence);
    var calls := Calls(s, script, job);
    LastCall(s, script, job);
    if Run(s, script, job).place.result.Success? {
      CommittedCalls(s, script, job);
    }
    if EndsIn(calls, Commit(job.force)) {
      var places := Commit(job.force);
      assert calls[|calls| - |places| + (|places| - 1)].place == places[|places| - 1];
    }
  }

  /** An acknowledged removal removes: the temporary entry is gone after the commit's removal and after the clean-up,
      and after a rename, unless the target already was a link to the file. */
  lemma RemovalRemoves(s: State, t: Turn, job: Job)
    requires Grounded(s, job) && t.answer.Done?
    ensures var next := Next(s, t, job);
            && (s.place.Unlinking? || s.place.Cleaning? ==> s.temporary !in next.dir.names)
            && (s.place.Publishing? && job.force && next.live && s.temporary != job.name ==>
                  s.temporary !in next.dir.names
                  || Interfere(s, t.others) == next.dir)
  {
    hide Interfere, TemporaryName;
  }

  /** A run that fails has created nothing, or has tried to clean up, or has published and then lost its directory's
      synchronization. */
  lemma {:induction false} FailureIsCleaned(s: State, script: seq<Turn>, job: Job)
    requires Grounded(s, job) && InOrder(s, job) && !s.place.Finished?
    ensures var r, calls := Run(s, script, job), Calls(s, script, job);
            && calls != []
            && (r.place.result.Failure? ==>
                  var last := calls[|calls| - 1];
                  || r.ours.None? || last.place.Cleaning?
                  || (last.place.SyncingDirectory? && !last.answer.Done? && r.live))
    decreases |script|, Rank(s.place)
  {
    hide Next, InOrder;
    var t := Head(script);
    LostProgress(s, job);
    WhereTo(s, t, job);
    WhereItEnds(s, t, job);
    RunOne(s, script, job);
    var next := Next(s, t, job);
    if next.place.Finished? {
      RunFinished(next, Tail(script), job);
      assert Calls(s, script, job) == [Made(s.place, t.answer)];
    } else {
      FailureIsCleaned(next, Tail(script), job);
    }
  }

  // ---- when nothing stands in its way

  /** The target may be published here: it is not there, or a regular file that may be replaced. */
  predicate Open(dir: Directory, job: Job) {
    job.name in dir.names ==>
      job.force && dir.names[job.name] in dir.files && dir.files[dir.names[job.name]].kind == Regular
  }

  /** The inspection lets exactly the open targets pass, as others have left the directory. */
  lemma InspectionIsExact(s: State, t: Turn, job: Job)
    requires s.place.Inspecting?
    ensures Next(s, t, job).place.Creating? <==> t.answer.Done? && Open(Interfere(s, t.others), job)
    ensures !Next(s, t, job).place.Creating? ==> Next(s, t, job).place == Finished(Failure(StateInvalid))
  {
    hide Interfere;
  }

  /** Room for a new file: neither its first temporary name nor its inode is taken. */
  predicate Room(dir: Directory, sequence: nat, job: Job, i: nat) {
    && Rooted(dir) && i !in dir.files
    && TemporaryName(job.pid, sequence) !in dir.names && TemporaryName(job.pid, sequence) != job.name
  }

  /** The process holds a file that only its temporary entry refers to. */
  function Holding(dir: Directory, sequence: nat, job: Job, i: nat, place: Place, f: File): State {
    var name := TemporaryName(job.pid, sequence);
    State(place, Directory(dir.names[name := i], dir.files[i := f]), Following(sequence, 1), name, Some(i), false)
  }

  /** The target refers to the file, and nothing else has changed. */
  function Published(dir: Directory, job: Job, i: nat): Directory {
    Directory(dir.names[job.name := i], dir.files[i := File(job.contents, true, Regular)])
  }

  lemma OneStep(s: State, next: State, a: Answer, n: nat, job: Job)
    requires Grounded(s, job) && !s.place.Finished? && n > 0 && Interfere(s, None) == s.dir
    requires Call(s, a, job) == next
    ensures Grounded(next, job)
    ensures Run(s, Repeat(Turn(None, a), n), job) == Run(next, Repeat(Turn(None, a), n - 1), job)
  {
    hide Interfere, Call, Grounded, Next;
    SettledNext(s, a, job);
    assert Repeat(Turn(None, a), n)[1..] == Repeat(Turn(None, a), n - 1);
    RunOne(s, Repeat(Turn(None, a), n), job);
  }

  lemma HoldingIsQuiet(dir: Directory, sequence: nat, job: Job, i: nat, place: Place, f: File)
    requires Room(dir, sequence, job, i)
    ensures var s := Holding(dir, sequence, job, i, place, f); Interfere(s, None) == s.dir
  {
    hide TemporaryName;
    var s := Holding(dir, sequence, job, i, place, f);
    assert Interfere(s, None).names == s.dir.names;
    assert Interfere(s, None).files == s.dir.files;
  }

  lemma StartIsQuiet(dir: Directory, sequence: nat, place: Place)
    requires Rooted(dir)
    ensures Interfere(Initial(dir, sequence).(place := place), None) == dir
  {
  }

  /** Open, inspect, create. */
  lemma Creates(dir: Directory, sequence: nat, job: Job, i: nat, n: nat)
    requires Room(dir, sequence, job, i) && Open(dir, job) && n >= 3
    ensures var s := Holding(dir, sequence, job, i, AfterWrite(0, job.contents), File([], false, Regular));
            && Grounded(s, job)
            && Run(Initial(dir, sequence), Repeat(Turn(None, Done(i)), n), job)
               == Run(s, Repeat(Turn(None, Done(i)), n - 3), job)
  {
    hide Interfere, TemporaryName, Run, Repeat;
    var s := Initial(dir, sequence);
    var inspecting, creating := s.(place := Inspecting), s.(place := Creating(0));
    StartIsQuiet(dir, sequence, Opening);
    StartIsQuiet(dir, sequence, Inspecting);
    StartIsQuiet(dir, sequence, Creating(0));
    var held := Holding(dir, sequence, job, i, AfterWrite(0, job.contents), File([], false, Regular));
    OneStep(s, inspecting, Done(i), n, job);
    OneStep(inspecting, creating, Done(i), n - 1, job);
    OneStep(creating, held, Done(i), n - 2, job);
  }

  /** One write for everything, if there is anything to write. */
  lemma Writes(dir: Directory, sequence: nat, job: Job, i: nat, n: nat)
    requires Room(dir, sequence, job, i) && i >= |job.contents| && n >= 1
    ensures var s := Holding(dir, sequence, job, i, AfterWrite(0, job.contents), File([], false, Regular));
            var written := Holding(dir, sequence, job, i, Syncing, File(job.contents, false, Regular));
            && Grounded(s, job) && Grounded(written, job)
            && Run(s, Repeat(Turn(None, Done(i)), n), job)
               == Run(written, Repeat(Turn(None, Done(i)), if job.contents == [] then n else n - 1), job)
  {
    hide Interfere, TemporaryName, Run, Repeat;
    var s := Holding(dir, sequence, job, i, AfterWrite(0, job.contents), File([], false, Regular));
    var written := Holding(dir, sequence, job, i, Syncing, File(job.contents, false, Regular));
    if job.contents != [] {
      HoldingIsQuiet(dir, sequence, job, i, AfterWrite(0, job.contents), File([], false, Regular));
      assert [] + job.contents[0..|job.contents|] == job.contents;
      assert Call(s, Done(i), job).dir.files == written.dir.files;
      OneStep(s, written, Done(i), n, job);
    }
  }

  /** Sync and close. */
  lemma Syncs(dir: Directory, sequence: nat, job: Job, i: nat, n: nat)
    requires Room(dir, sequence, job, i) && n >= 2
    ensures var s := Holding(dir, sequence, job, i, Syncing, File(job.contents, false, Regular));
            var closed := Holding(dir, sequence, job, i, Publishing, File(job.contents, true, Regular));
            && Grounded(s, job) && Grounded(closed, job)
            && Run(s, Repeat(Turn(None, Done(i)), n), job) == Run(closed, Repeat(Turn(None, Done(i)), n - 2), job)
  {
    hide Interfere, TemporaryName, Run, Repeat;
    var unsynced, synced := File(job.contents, false, Regular), File(job.contents, true, Regular);
    var s := Holding(dir, sequence, job, i, Syncing, unsynced);
    var closing := Holding(dir, sequence, job, i, Closing, synced);
    HoldingIsQuiet(dir, sequence, job, i, Syncing, unsynced);
    HoldingIsQuiet(dir, sequence, job, i, Closing, synced);
    assert Call(s, Done(i), job).dir.files == closing.dir.files;
    OneStep(s, closing, Done(i), n, job);
    OneStep(closing, Holding(dir, sequence, job, i, Publishing, synced), Done(i), n - 1, job);
  }

  /** The directory is synced last. */
  function Live(dir: Directory, sequence: nat, job: Job, i: nat): State {
    State(SyncingDirectory, Published(dir, job, i), Following(sequence, 1), TemporaryName(job.pid, sequence), Some(i),
          true)
  }

  lemma Exposes(dir: Directory, sequence: nat, job: Job, i: nat, n: nat)
    requires Room(dir, sequence, job, i) && Open(dir, job) && n >= 2
    ensures var s := Holding(dir, sequence, job, i, Publishing, File(job.contents, true, Regular));
            && Grounded(s, job) && Grounded(Live(dir, sequence, job, i), job)
            && Run(s, Repeat(Turn(None, Done(i)), n), job)
               == Run(Live(dir, sequence, job, i), Repeat(Turn(None, Done(i)), if job.force then n - 1 else n - 2), job)
  {
    hide Interfere, TemporaryName, Run, Repeat;
    var s := Holding(dir, sequence, job, i, Publishing, File(job.contents, true, Regular));
    var live := Live(dir, sequence, job, i);
    HoldingIsQuiet(dir, sequence, job, i, Publishing, File(job.contents, true, Regular));
    if job.force {
      assert Call(s, Done(i), job).dir.names == live.dir.names;
      OneStep(s, live, Done(i), n, job);
    } else {
      var linked := Linked(dir, sequence, job, i);
      LinkedIsQuiet(dir, sequence, job, i);
      OneStep(s, linked, Done(i), n, job);
      assert Call(linked, Done(i), job).dir.names == live.dir.names;
      OneStep(linked, live, Done(i), n - 1, job);
    }
  }

  /** Between the link and the removal of the temporary entry. */
  function Linked(dir: Directory, sequence: nat, job: Job, i: nat): State {
    var s := Holding(dir, sequence, job, i, Unlinking, File(job.contents, true, Regular));
    s.(dir := s.dir.(names := s.dir.names[job.name := i]), live := true)
  }

  lemma LinkedIsQuiet(dir: Directory, sequence: nat, job: Job, i: nat)
    requires Room(dir, sequence, job, i)
    ensures Interfere(Linked(dir, sequence, job, i), None) == Linked(dir, sequence, job, i).dir
  {
    hide TemporaryName;
    var s := Linked(dir, sequence, job, i);
    assert Interfere(s, None).names == s.dir.names;
    assert Interfere(s, None).files == s.dir.files;
  }

  lemma LiveIsQuiet(dir: Directory, sequence: nat, job: Job, i: nat)
    requires Room(dir, sequence, job, i)
    ensures Interfere(Live(dir, sequence, job, i), None) == Live(dir, sequence, job, i).dir
  {
    hide TemporaryName;
    var s := Live(dir, sequence, job, i);
    assert Interfere(s, None).names == s.dir.names;
    assert Interfere(s, None).files == s.dir.files;
  }

  lemma Finishes(dir: Directory, sequence: nat, job: Job, i: nat, n: nat)
    requires Room(dir, sequence, job, i) && n >= 1
    ensures Grounded(Live(dir, sequence, job, i), job)
    ensures var r := Run(Live(dir, sequence, job, i), Repeat(Turn(None, Done(i)), n), job);
            r.place.result.Success? && r.dir == Published(dir, job, i)
  {
    hide Interfere, TemporaryName, Repeat;
    var s := Live(dir, sequence, job, i);
    LiveIsQuiet(dir, sequence, job, i);
    var done := s.(place := Finished(Success(())));
    OneStep(s, done, Done(i), n, job);
    RunFinished(done, Repeat(Turn(None, Done(i)), n - 1), job);
  }

  /** Undisturbed, with every call done at once, publication succeeds wherever the target is open and there is room: the
      target refers to a new file with the complete contents on disk, and the directory is otherwise as it was. */
  lemma UndisturbedPublishes(dir: Directory, sequence: nat, job: Job, i: nat)
    requires Room(dir, sequence, job, i) && Open(dir, job) && i >= |job.contents|
    ensures var r := Run(Initial(dir, sequence), Repeat(Turn(None, Done(i)), 9), job);
            r.place.result.Success? && r.dir == Published(dir, job, i)
  {
    hide Run, Repeat, Room, Open, Grounded, Holding, Live, Published;
    Creates(dir, sequence, job, i, 9);
    Writes(dir, sequence, job, i, 6);
    var synced: nat := if job.contents == [] then 6 else 5;
    Syncs(dir, sequence, job, i, synced);
    Exposes(dir, sequence, job, i, synced - 2);
    Finishes(dir, sequence, job, i, if job.force then synced - 3 else synced - 4);
  }
}
