/** Atomic publication of a file: `publish` of `src/config.cpp` over an abstract directory,
    with short writes, interrupted and failing calls, and other processes at work between any
    two calls. A crash is a run that stops early: every statement below is about every step. */
module Publication {
  import opened Bytes
  import opened Decimals
  import opened Errors

  datatype FileKind = Regular | Folder | Special

  /** `synced` says that `data` has reached the disk. */
  datatype File = File(data: Bytes, synced: bool, kind: FileKind)

  datatype Directory = Directory(names: map<string, nat>, files: map<nat, File>)

  /** What the kernel says to one call. `Done` carries the number of octets of a write and the
      inode number of a creation; `Refused` is any failure the directory does not explain. */
  datatype Answer = Done(count: nat) | Interrupted | Refused

  /** What other processes make of the directory before one call, if anything, and the answer to it. */
  datatype Turn = Turn(others: Option<Directory>, answer: Answer)

  datatype Job = Job(name: string, contents: Bytes, force: bool, pid: nat)

  /** The next system call. */
  datatype Place =
    | Opening
    | Inspecting
    | Creating(attempt: nat)
    | Writing(offset: nat)
    | Syncing
    | Closing
    | Publishing
    | Unlinking
    | SyncingDirectory
    | Cleaning
    | Finished(result: Result<()>)

  /** `ours` is the inode this process created; `live` records that a call bound the target to it. */
  datatype State = State(place: Place, dir: Directory, sequence: nat, temporary: string, ours: Option<nat>, live: bool)

  const ATTEMPTS := 64
  const LOST := Turn(None, Refused)

  function Initial(dir: Directory, sequence: nat): State {
    State(Opening, dir, sequence, "", None, false)
  }

  function TemporaryName(pid: nat, sequence: nat): string {
    ".credbind-config-init." + Decimal(pid) + "." + Decimal(sequence)
  }

  function Following(sequence: nat, k: nat): nat {
    (sequence + k) % UINT64_LIMIT
  }

  // ---- other processes

  /** Others rearrange the directory as they like, except that they leave the temporary entry of
      this process alone, do not write to its file, and do not link that file before it is synced. */
  function Rearranged(dir: Directory, temporary: string, ours: Option<nat>, others: Option<Directory>): Directory {
    var o := if others.Some? then others.value else dir;
    if ours.None? || ours.value !in dir.files then
      Directory(map n | n in o.names && o.names[n] in o.files :: o.names[n], o.files)
    else
      var i := ours.value;
      var files := o.files[i := dir.files[i]];
      var names := map n | n in o.names && o.names[n] in files && (o.names[n] == i ==> files[i].synced) :: o.names[n];
      Directory(if temporary in dir.names && dir.names[temporary] == i then names[temporary := i] else names, files)
  }

  /** What others may make of a directory in which this process has put `ours` under `temporary`: the hypothesis of
      every theorem below. */
  ghost predicate Respects(dir: Directory, temporary: string, ours: Option<nat>, o: Directory) {
    && (forall n :: n in o.names ==> o.names[n] in o.files)
    && (ours.Some? && ours.value in dir.files ==>
          var i := ours.value;
          var held := temporary in dir.names && dir.names[temporary] == i;
          && i in o.files && o.files[i] == dir.files[i]
          && (held ==> temporary in o.names && o.names[temporary] == i)
          && forall n :: n in o.names && o.names[n] == i ==> o.files[i].synced || (held && n == temporary))
  }

  /** `Rearranged` ranges over exactly the directories that respect this process: it yields no other, and leaves
      these as they are. A script is any sequence of such moves. */
  lemma RearrangedIsRespectful(dir: Directory, temporary: string, ours: Option<nat>, o: Directory)
    ensures Respects(dir, temporary, ours, Rearranged(dir, temporary, ours, Some(o)))
    ensures Respects(dir, temporary, ours, o) <==> Rearranged(dir, temporary, ours, Some(o)) == o
  {
    var r := Rearranged(dir, temporary, ours, Some(o));
    if Respects(dir, temporary, ours, o) {
      assert r.files == o.files;
      assert r.names == o.names;
    }
  }

  lemma NameDoesNotMatterYet(dir: Directory, a: string, b: string, others: Option<Directory>)
    ensures Rearranged(dir, a, None, others) == Rearranged(dir, b, None, others)
  {
  }

  function Interfere(s: State, others: Option<Directory>): Directory {
    Rearranged(s.dir, s.temporary, s.ours, others)
  }

  predicate HoldsTemporary(s: State) {
    s.ours.Some? && s.temporary in s.dir.names && s.dir.names[s.temporary] == s.ours.value
  }

  // ---- one call

  function Fail(s: State): State {
    s.(place := Finished(Failure(StateInvalid)))
  }

  function CleanUp(s: State): State {
    s.(place := Cleaning)
  }

  function AfterWrite(offset: nat, contents: Bytes): Place {
    if offset < |contents| then Writing(offset) else Syncing
  }

  function WithFile(s: State, f: File): State
    requires s.ours.Some?
  {
    s.(dir := s.dir.(files := s.dir.files[s.ours.value := f]))
  }

  function Unbound(s: State): State {
    s.(dir := s.dir.(names := map n | n in s.dir.names && n != s.temporary :: s.dir.names[n]))
  }

  function Inspect(s: State, a: Answer, job: Job): State {
    if !a.Done? then Fail(s)
    else if job.name in s.dir.names
            && (!job.force || s.dir.names[job.name] !in s.dir.files
                || s.dir.files[s.dir.names[job.name]].kind != Regular) then
      Fail(s)
    else s.(place := Creating(0))
  }

  function Create(s: State, attempt: nat, a: Answer, job: Job): State {
    var name := TemporaryName(job.pid, s.sequence);
    var tried := s.(temporary := name, sequence := Following(s.sequence, 1));
    if !a.Done? then Fail(tried)
    else if name in s.dir.names then
      if attempt + 1 < ATTEMPTS then tried.(place := Creating(attempt + 1)) else Fail(tried)
    else if a.count in s.dir.files then Fail(tried)
    else
      tried.(dir := Directory(s.dir.names[name := a.count], s.dir.files[a.count := File([], false, Regular)]),
             ours := Some(a.count), place := AfterWrite(0, job.contents))
  }

  function Write(s: State, offset: nat, a: Answer, job: Job): State
    requires s.ours.Some? && s.ours.value in s.dir.files && offset <= |job.contents|
  {
    match a
    case Interrupted => s
    case Refused => CleanUp(s)
    case Done(count) =>
      var written := if count < |job.contents| - offset then count else |job.contents| - offset;
      if written == 0 then CleanUp(s)
      else
        var f := s.dir.files[s.ours.value];
        WithFile(s, f.(data := f.data + job.contents[offset..offset + written], synced := false))
          .(place := AfterWrite(offset + written, job.contents))
  }

  function Rename(s: State, a: Answer, job: Job): State
    requires s.ours.Some?
  {
    var names := s.dir.names;
    var folder := job.name in names && names[job.name] in s.dir.files && s.dir.files[names[job.name]].kind == Folder;
    if !a.Done? || folder then CleanUp(s)
    else if job.name in names && names[job.name] == s.ours.value then s.(live := true, place := SyncingDirectory)
    else
      var moved := Unbound(s);
      moved.(dir := moved.dir.(names := moved.dir.names[job.name := s.ours.value]), live := true,
             place := SyncingDirectory)
  }

  function Link(s: State, a: Answer, job: Job): State
    requires s.ours.Some?
  {
    if !a.Done? || job.name in s.dir.names then CleanUp(s)
    else s.(dir := s.dir.(names := s.dir.names[job.name := s.ours.value]), live := true, place := Unlinking)
  }

  /** The file this process holds is one the directory knows. */
  predicate Grounded(s: State, job: Job) {
    match s.place
    case Opening | Inspecting | Creating(_) | Finished(_) => true
    case Writing(offset) => s.ours.Some? && s.ours.value in s.dir.files && offset <= |job.contents|
    case _ => s.ours.Some? && s.ours.value in s.dir.files
  }

  /** The call at `s.place`, on the directory as others have left it. */
  function Call(s: State, a: Answer, job: Job): State
    requires Grounded(s, job)
  {
    match s.place
    case Opening => if a.Done? then s.(place := Inspecting) else Fail(s)
    case Inspecting => Inspect(s, a, job)
    case Creating(attempt) => Create(s, attempt, a, job)
    case Writing(offset) => Write(s, offset, a, job)
    case Syncing =>
      if a.Done? then WithFile(s, s.dir.files[s.ours.value].(synced := true)).(place := Closing) else CleanUp(s)
    case Closing => if a.Done? then s.(place := Publishing) else CleanUp(s)
    case Publishing => if job.force then Rename(s, a, job) else Link(s, a, job)
    case Unlinking => if a.Done? then Unbound(s).(place := SyncingDirectory) else CleanUp(s)
    case SyncingDirectory => if a.Done? then s.(place := Finished(Success(()))) else Fail(s)
    case Cleaning => Fail(if a.Done? then Unbound(s) else s)
    case Finished(_) => s
  }

  function Disturbed(s: State, t: Turn): (r: State)
    ensures r == s.(dir := r.dir)
  {
    s.(dir := Interfere(s, t.others))
  }

  lemma DisturbedIsGrounded(s: State, t: Turn, job: Job)
    requires Grounded(s, job)
    ensures Grounded(Disturbed(s, t), job)
  {
  }

  function Next(s: State, t: Turn, job: Job): (r: State)
    requires Grounded(s, job)
    ensures Grounded(r, job)
  {
    DisturbedIsGrounded(s, t, job);
    Call(Disturbed(s, t), t.answer, job)
  }

  // ---- whole runs

  /** Calls left once every one of them fails. */
  function Rank(p: Place): nat {
    match p
    case Finished(_) => 0
    case Cleaning | Opening | Inspecting | Creating(_) | SyncingDirectory => 1
    case _ => 2
  }

  lemma LostProgress(s: State, job: Job)
    requires Grounded(s, job) && !s.place.Finished?
    ensures Rank(Next(s, LOST, job).place) < Rank(s.place)
  {
  }

  function Head(script: seq<Turn>): Turn {
    if script == [] then LOST else script[0]
  }

  function Tail(script: seq<Turn>): seq<Turn> {
    if script == [] then [] else script[1..]
  }

  function Run(s: State, script: seq<Turn>, job: Job): (r: State)
    requires Grounded(s, job)
    ensures r.place.Finished?
    decreases |script|, Rank(s.place)
  {
    if s.place.Finished? then s
    else
      LostProgress(s, job);
      Run(Next(s, Head(script), job), Tail(script), job)
  }

  lemma RunOne(s: State, script: seq<Turn>, job: Job)
    requires Grounded(s, job) && !s.place.Finished?
    ensures Run(s, script, job) == Run(Next(s, Head(script), job), Tail(script), job)
  {
    LostProgress(s, job);
  }

  lemma RunFinished(s: State, script: seq<Turn>, job: Job)
    requires s.place.Finished?
    ensures Run(s, script, job) == s
  {
  }

  // ---- what a call of this process may do to the directory

  /** The entry is as it was, and so is the file behind it. */
  predicate Kept(before: Directory, after: Directory, name: string) {
    && (name in before.names <==> name in after.names)
    && (name in before.names ==>
          && before.names[name] == after.names[name]
          && (before.names[name] in before.files ==>
                && before.names[name] in after.files
                && after.files[after.names[name]] == before.files[before.names[name]]))
  }

  /** The entry refers to the complete contents, on disk. */
  predicate Complete(d: Directory, name: string, contents: Bytes) {
    name in d.names && d.names[name] in d.files && d.files[d.names[name]] == File(contents, true, Regular)
  }

  /** The target is left alone, or made to refer to the complete contents, over another entry only by force;
      no other entry of the directory changes but the temporary one. */
  ghost predicate Safe(before: Directory, after: State, job: Job) {
    && (|| Kept(before, after.dir, job.name)
        || (Complete(after.dir, job.name, job.contents) && (job.name in before.names ==> job.force)))
    && forall name :: name != job.name && name != after.temporary ==> Kept(before, after.dir, name)
  }

  ghost predicate EveryStepSafe(s: State, script: seq<Turn>, job: Job)
    requires Grounded(s, job)
    decreases |script|, Rank(s.place)
  {
    s.place.Finished?
    || (LostProgress(s, job);
        var next := Next(s, Head(script), job);
        Safe(Interfere(s, Head(script).others), next, job) && EveryStepSafe(next, Tail(script), job))
  }

  /** The target is none of the names the next attempts would give the temporary file. */
  predicate NotTemporary(job: Job, sequence: nat) {
    forall k :: 0 <= k < ATTEMPTS ==> TemporaryName(job.pid, Following(sequence, k)) != job.name
  }

  // ---- the invariant

  /** This process's file is what its place says it is. */
  predicate Stage(s: State, f: File, job: Job) {
    match s.place
    case Opening | Inspecting | Creating(_) => true
    case Writing(offset) => offset < |job.contents| && f == File(job.contents[..offset], false, Regular) && !s.live
    case Syncing => f == File(job.contents, false, Regular) && !s.live
    case Closing | Publishing => f == File(job.contents, true, Regular) && !s.live
    case Unlinking | SyncingDirectory => f == File(job.contents, true, Regular) && s.live
    case Cleaning => (f.synced || s.live) ==> f == File(job.contents, true, Regular)
    case Finished(r) => ((f.synced || s.live) ==> f == File(job.contents, true, Regular)) && (r.Success? ==> s.live)
  }

  predicate Before(p: Place) {
    p.Opening? || p.Inspecting? || p.Creating?
  }

  ghost predicate Owned(s: State, job: Job) {
    && s.ours.Some? && s.ours.value in s.dir.files && s.temporary != job.name
    && Stage(s, s.dir.files[s.ours.value], job)
    && (s.dir.files[s.ours.value].synced
        || forall n :: n in s.dir.names && s.dir.names[n] == s.ours.value ==> n == s.temporary)
  }

  ghost predicate Inv(s: State, job: Job, start: nat) {
    if Before(s.place) then
      && s.ours.None? && !s.live
      && s.sequence == (if s.place.Creating? then Following(start, s.place.attempt) else start)
      && (s.place.Creating? ==> s.place.attempt < ATTEMPTS)
    else if s.place.Finished? && s.ours.None? then !s.live && s.place.result.Failure?
    else Owned(s, job) && (!s.place.SyncingDirectory? && !s.place.Finished? ==> HoldsTemporary(s))
  }

  predicate Rooted(d: Directory) {
    forall n :: n in d.names ==> d.names[n] in d.files
  }

  lemma DisturbedKeepsInv(s: State, t: Turn, job: Job, start: nat)
    requires Grounded(s, job) && Inv(s, job, start)
    ensures Inv(Disturbed(s, t), job, start) && Rooted(Disturbed(s, t).dir)
  {
    var r := Disturbed(s, t);
    if s.ours.Some? {
      assert s.ours.value in r.dir.files && r.dir.files[s.ours.value] == s.dir.files[s.ours.value];
    }
  }

  /** One call keeps the invariant and is safe. */
  lemma CallIsSafe(s: State, a: Answer, job: Job, start: nat)
    requires Grounded(s, job) && Rooted(s.dir) && Inv(s, job, start)
    requires NotTemporary(job, start) && start < UINT64_LIMIT
    ensures Inv(Call(s, a, job), job, start)
    ensures Safe(s.dir, Call(s, a, job), job)
  {
    hide TemporaryName, Rearranged, Create, Write, Rename, Link;
    match s.place {
      case Creating(k) => CreateIsSafe(s, k, a, job, start);
      case Writing(offset) => WriteIsSafe(s, offset, a, job, start);
      case Publishing => PublishIsSafe(s, a, job, start);
      case _ =>
    }
  }

  lemma CreateIsSafe(s: State, k: nat, a: Answer, job: Job, start: nat)
    requires s.place == Creating(k) && Rooted(s.dir) && Inv(s, job, start) && NotTemporary(job, start)
    ensures Inv(Create(s, k, a, job), job, start)
    ensures Safe(s.dir, Create(s, k, a, job), job)
  {
    hide TemporaryName;
    assert TemporaryName(job.pid, Following(start, k)) != job.name;
    assert Following(Following(start, k), 1) == Following(start, k + 1);
  }

  lemma WriteIsSafe(s: State, offset: nat, a: Answer, job: Job, start: nat)
    requires s.place == Writing(offset) && Grounded(s, job) && Inv(s, job, start)
    ensures Inv(Write(s, offset, a, job), job, start)
    ensures Safe(s.dir, Write(s, offset, a, job), job)
  {
    var r := Write(s, offset, a, job);
    if a.Done? && r.place != Cleaning {
      var written := if a.count < |job.contents| - offset then a.count else |job.contents| - offset;
      assert job.contents[..offset] + job.contents[offset..offset + written] == job.contents[..offset + written];
      assert job.contents[..|job.contents|] == job.contents;
    }
  }

  lemma PublishIsSafe(s: State, a: Answer, job: Job, start: nat)
    requires s.place == Publishing && Grounded(s, job) && Inv(s, job, start)
    ensures Inv(Call(s, a, job), job, start)
    ensures Safe(s.dir, Call(s, a, job), job)
  {
  }

  lemma {:induction false} RunIsSafe(s: State, script: seq<Turn>, job: Job, start: nat)
    requires Grounded(s, job) && Inv(s, job, start) && NotTemporary(job, start) && start < UINT64_LIMIT
    ensures EveryStepSafe(s, script, job)
    ensures Inv(Run(s, script, job), job, start)
    decreases |script|, Rank(s.place)
  {
    if !s.place.Finished? {
      var t := Head(script);
      DisturbedKeepsInv(s, t, job, start);
      CallIsSafe(Disturbed(s, t), t.answer, job, start);
      LostProgress(s, job);
      hide Inv, Safe, NotTemporary, Interfere;
      RunIsSafe(Next(s, t, job), Tail(script), job, start);
    }
  }

  /** From any directory, under any interference, with any answers, every call is safe, if and only if
      the target's name is not one the temporary file may get. */
  lemma SafeIffNotTemporary(job: Job, sequence: nat)
    requires sequence < UINT64_LIMIT
    ensures (forall dir, script :: EveryStepSafe(Initial(dir, sequence), script, job)) <==> NotTemporary(job, sequence)
  {
    if NotTemporary(job, sequence) {
      forall dir, script ensures EveryStepSafe(Initial(dir, sequence), script, job) {
        RunIsSafe(Initial(dir, sequence), script, job, sequence);
      }
    } else {
      var k := FirstClash(job, sequence, ATTEMPTS);
      ClashIsUnsafe(job, sequence, k);
    }
  }

  /** The first attempt whose temporary name is the target's. */
  ghost function FirstClash(job: Job, sequence: nat, bound: nat): (k: nat)
    requires exists k :: 0 <= k < bound && TemporaryName(job.pid, Following(sequence, k)) == job.name
    ensures k < bound && TemporaryName(job.pid, Following(sequence, k)) == job.name
    ensures forall j :: 0 <= j < k ==> TemporaryName(job.pid, Following(sequence, j)) != job.name
  {
    if exists k :: 0 <= k < bound - 1 && TemporaryName(job.pid, Following(sequence, k)) == job.name then
      FirstClash(job, sequence, bound - 1)
    else bound - 1
  }

  const EMPTY := Directory(map[], map[])

  /** Another process holds the next temporary name, and nothing else. */
  function Occupied(job: Job, sequence: nat): Turn {
    Turn(Some(Directory(map[TemporaryName(job.pid, sequence) := 0], map[0 := File([], true, Special)])), Done(0))
  }

  /** Others take the first `k` temporary names in turn, and then leave the directory empty. */
  function ClashScript(job: Job, sequence: nat, k: nat): seq<Turn>
    decreases k
  {
    if k == 0 then [Turn(Some(EMPTY), Done(0))]
    else [Occupied(job, sequence)] + ClashScript(job, Following(sequence, 1), k - 1)
  }

  /** Creation under the target's name binds it to an empty file that is not on disk. */
  lemma CreationClash(s: State, job: Job)
    requires s.place.Creating? && s.ours.None? && TemporaryName(job.pid, s.sequence) == job.name
    ensures !EveryStepSafe(s, [Turn(Some(EMPTY), Done(0))], job)
  {
    hide TemporaryName;
    var t := Turn(Some(EMPTY), Done(0));
    assert Interfere(s, t.others) == EMPTY;
    var next := Next(s, t, job);
    assert next.dir == Directory(map[job.name := 0], map[0 := File([], false, Regular)]);
    assert !Safe(EMPTY, next, job);
  }

  lemma OccupiedStep(s: State, job: Job)
    requires s.place.Creating? && s.place.attempt + 1 < ATTEMPTS && s.ours.None?
    ensures Next(s, Occupied(job, s.sequence), job).place == Creating(s.place.attempt + 1)
    ensures Next(s, Occupied(job, s.sequence), job).ours == None
    ensures Next(s, Occupied(job, s.sequence), job).sequence == Following(s.sequence, 1)
  {
    assert TemporaryName(job.pid, s.sequence) in Interfere(s, Occupied(job, s.sequence).others).names;
  }

  lemma {:induction false} CreatingClashes(s: State, job: Job, k: nat)
    requires s.place.Creating? && s.place.attempt + k < ATTEMPTS && s.ours.None? && s.sequence < UINT64_LIMIT
    requires TemporaryName(job.pid, Following(s.sequence, k)) == job.name
    ensures !EveryStepSafe(s, ClashScript(job, s.sequence, k), job)
    decreases k
  {
    hide Next, Safe, Interfere, Occupied, TemporaryName;
    if k == 0 {
      CreationClash(s, job);
    } else {
      var rest := ClashScript(job, Following(s.sequence, 1), k - 1);
      var script := [Occupied(job, s.sequence)] + rest;
      assert script[1..] == rest;
      assert Following(Following(s.sequence, 1), k - 1) == Following(s.sequence, k);
      LostProgress(s, job);
      OccupiedStep(s, job);
      CreatingClashes(Next(s, script[0], job), job, k - 1);
    }
  }

  lemma QuietEntry(place: Place, sequence: nat, job: Job)
    requires place.Opening? || place.Inspecting?
    ensures var s := Initial(EMPTY, sequence).(place := place);
            Next(s, Turn(None, Done(0)), job) == s.(place := if place.Opening? then Inspecting else Creating(0))
  {
    var s := Initial(EMPTY, sequence).(place := place);
    assert Interfere(s, None) == EMPTY;
  }

  lemma ClashIsUnsafe(job: Job, sequence: nat, k: nat)
    requires sequence < UINT64_LIMIT && k < ATTEMPTS
    requires TemporaryName(job.pid, Following(sequence, k)) == job.name
    ensures exists dir, script :: !EveryStepSafe(Initial(dir, sequence), script, job)
  {
    hide Next, Safe, Interfere, TemporaryName, ClashScript, Following;
    var quiet := Turn(None, Done(0));
    var script := ClashScript(job, sequence, k);
    var s0 := Initial(EMPTY, sequence);
    var s1 := s0.(place := Inspecting);
    CreatingClashes(s0.(place := Creating(0)), job, k);
    QuietEntry(Inspecting, sequence, job);
    QuietEntry(Opening, sequence, job);
    assert ([quiet] + script)[1..] == script;
    assert ([quiet, quiet] + script)[1..] == [quiet] + script;
    assert !EveryStepSafe(s1, [quiet] + script, job);
    assert !EveryStepSafe(s0, [quiet, quiet] + script, job);
  }

  // ---- what the result says

  /** Success means that the target went live complete. */
  lemma SuccessMeansPublished(dir: Directory, sequence: nat, script: seq<Turn>, job: Job)
    requires NotTemporary(job, sequence) && sequence < UINT64_LIMIT
    ensures var r := Run(Initial(dir, sequence), script, job);
            r.place.result.Success? ==>
              r.live && r.ours.Some? && r.ours.value in r.dir.files
              && r.dir.files[r.ours.value] == File(job.contents, true, Regular)
  {
    RunIsSafe(Initial(dir, sequence), script, job, sequence);
  }

  /** The call that makes a run live leaves the target complete. */
  lemma GoingLiveIsComplete(s: State, t: Turn, job: Job, start: nat)
    requires Grounded(s, job) && Inv(s, job, start) && !s.live && Next(s, t, job).live
    ensures Complete(Next(s, t, job).dir, job.name, job.contents)
  {
    DisturbedKeepsInv(s, t, job, start);
    assert s.place == Publishing;
  }

  /** A call after the target went live, the removal of the temporary entry or the synchronization of
      the directory, does not succeed. */
  predicate LateRefusal(s: State, script: seq<Turn>, job: Job)
    requires Grounded(s, job)
    decreases |script|, Rank(s.place)
  {
    && !s.place.Finished?
    && (LostProgress(s, job);
        || ((s.place.Unlinking? || s.place.SyncingDirectory?) && !Head(script).answer.Done?)
        || LateRefusal(Next(s, Head(script), job), Tail(script), job))
  }

  predicate Straight(s: State) {
    && !s.place.Cleaning? && !s.place.Finished?
    && (s.live <==> s.place.Unlinking? || s.place.SyncingDirectory?)
  }

  lemma CleaningFails(s: State, script: seq<Turn>, job: Job)
    requires Grounded(s, job) && s.place.Cleaning?
    ensures var r := Run(s, script, job);
            r.place.result.Failure? && r.live == s.live && !LateRefusal(s, script, job)
  {
    hide Interfere;
    LostProgress(s, job);
    assert Next(s, Head(script), job).place == Finished(Failure(StateInvalid));
  }

  lemma {:induction false} OutcomeOf(s: State, script: seq<Turn>, job: Job)
    requires Grounded(s, job) && Straight(s)
    ensures var r := Run(s, script, job);
            && (r.place.result.Success? <==> (r.live && !LateRefusal(s, script, job)))
            && (LateRefusal(s, script, job) ==> r.live)
    decreases |script|, Rank(s.place)
  {
    hide Interfere;
    LostProgress(s, job);
    var next := Next(s, Head(script), job);
    assert Run(s, script, job) == Run(next, Tail(script), job);
    if Straight(next) {
      OutcomeOf(next, Tail(script), job);
    } else if next.place.Cleaning? {
      CleaningFails(next, Tail(script), job);
      assert next.live == s.live;
    } else {
      assert next.place.Finished? && Run(next, Tail(script), job) == next && next.live == s.live;
      assert !LateRefusal(next, Tail(script), job);
    }
  }

  /** Success is exactly publication with no late refusal; an error is reported over a published
      target exactly when there is one. */
  lemma ResultIsExact(dir: Directory, sequence: nat, script: seq<Turn>, job: Job)
    ensures var s := Initial(dir, sequence);
            var r := Run(s, script, job);
            && (r.place.result.Success? <==> (r.live && !LateRefusal(s, script, job)))
            && (r.place.result.Failure? && r.live <==> LateRefusal(s, script, job))
  {
    OutcomeOf(Initial(dir, sequence), script, job);
  }

  function Repeat(t: Turn, n: nat): seq<Turn> {
    if n == 0 then [] else [t] + Repeat(t, n - 1)
  }

  /** Nothing in the directory for the interference filter to change. */
  predicate Quiet(s: State) {
    && Rooted(s.dir)
    && (s.ours.Some? ==>
          && s.ours.value in s.dir.files && HoldsTemporary(s)
          && forall n :: n in s.dir.names && s.dir.names[n] == s.ours.value ==>
               n == s.temporary || s.dir.files[s.ours.value].synced)
  }

  lemma QuietIsUndisturbed(s: State)
    requires Quiet(s)
    ensures Interfere(s, None) == s.dir
  {
    var d := Interfere(s, None);
    assert d.files == s.dir.files;
    assert forall n :: n in d.names <==> n in s.dir.names;
    assert d.names == s.dir.names;
  }

  lemma SettledNext(s: State, a: Answer, job: Job)
    requires Grounded(s, job) && Interfere(s, None) == s.dir
    ensures Next(s, Turn(None, a), job) == Call(s, a, job)
  {
    hide Call, Interfere, Grounded;
    assert Disturbed(s, Turn(None, a)) == s;
  }

  /** One call of a quiet run. */
  lemma QuietStep(s: State, a: Answer, n: nat, job: Job)
    requires Grounded(s, job) && Quiet(s) && !s.place.Finished? && n > 0
    ensures Grounded(Call(s, a, job), job)
    ensures Run(s, Repeat(Turn(None, a), n), job) == Run(Call(s, a, job), Repeat(Turn(None, a), n - 1), job)
  {
    hide Interfere, Call, Grounded, Quiet, Next;
    QuietIsUndisturbed(s);
    SettledNext(s, a, job);
    assert Repeat(Turn(None, a), n)[1..] == Repeat(Turn(None, a), n - 1);
  }

  /** The first seven calls, up to the rename or the link, all answered at once. */
  function Stages(job: Job, sequence: nat): (r: seq<State>)
    ensures |r| == 7
  {
    var temp, i, next := TemporaryName(job.pid, sequence), |job.contents|, Following(sequence, 1);
    var start := Initial(EMPTY, sequence);
    var created := State(Writing(0), Directory(map[temp := i], map[i := File([], false, Regular)]), next, temp,
                         Some(i), false);
    var written := created.(place := Syncing,
                            dir := Directory(map[temp := i], map[i := File(job.contents, false, Regular)]));
    var synced := written.(place := Closing,
                           dir := Directory(map[temp := i], map[i := File(job.contents, true, Regular)]));
    [start, start.(place := Inspecting), start.(place := Creating(0)), created, written, synced,
     synced.(place := Publishing)]
  }

  lemma StagesFollow(job: Job, sequence: nat, k: nat)
    requires job.contents != [] && k < 7
    ensures var s := Stages(job, sequence)[k];
            && Grounded(s, job) && Quiet(s) && !s.place.Finished?
            && (k < 6 ==> Call(s, Done(|job.contents|), job) == Stages(job, sequence)[k + 1])
  {
    hide TemporaryName;
    assert [] + job.contents[0..|job.contents|] == job.contents;
  }

  lemma {:induction false} StagesRun(job: Job, sequence: nat, k: nat)
    requires job.contents != [] && k < 7
    ensures Grounded(Stages(job, sequence)[k], job)
    ensures var a := Done(|job.contents|);
            && Grounded(Call(Stages(job, sequence)[6], a, job), job)
            && Run(Stages(job, sequence)[k], Repeat(Turn(None, a), 7 - k), job)
               == Run(Call(Stages(job, sequence)[6], a, job), Repeat(Turn(None, a), 0), job)
    decreases 7 - k
  {
    hide *;
    StagesFollow(job, sequence, k);
    QuietStep(Stages(job, sequence)[k], Done(|job.contents|), 7 - k, job);
    if k < 6 {
      StagesRun(job, sequence, k + 1);
    }
  }

  /** An error does not mean "not published": if the first seven calls are answered at once, up to the rename
      or the link, and every later one is refused, the run fails over a target that holds the contents. */
  lemma ErrorOverPublishedTarget(job: Job, sequence: nat)
    requires job.contents != [] && NotTemporary(job, sequence) && sequence < UINT64_LIMIT
    ensures var r := Run(Initial(EMPTY, sequence), Repeat(Turn(None, Done(|job.contents|)), 7), job);
            r.place.result.Failure? && Complete(r.dir, job.name, job.contents)
  {
    hide TemporaryName, Run, Grounded, Call, Complete, Quiet, Interfere, NotTemporary;
    StagesRun(job, sequence, 0);
    PublishSettles(job, sequence);
    RefusedAfterLive(Call(Stages(job, sequence)[6], Done(|job.contents|), job), job);
  }

  lemma RefusedAfterLive(s: State, job: Job)
    requires Grounded(s, job) && Complete(s.dir, job.name, job.contents)
    requires (s.place.Unlinking? && Quiet(s)) || (s.place.SyncingDirectory? && Interfere(s, None) == s.dir)
    ensures var r := Run(s, [], job);
            r.place.result.Failure? && Complete(r.dir, job.name, job.contents)
  {
    hide Interfere, Quiet, Complete, Next, HoldsTemporary, WithFile, Unbound, Rename, Link, Write, Create, Inspect;
    if s.place.Unlinking? {
      QuietIsUndisturbed(s);
      QuietCleanUp(s);
      QuietIsUndisturbed(CleanUp(s));
      SettledNext(CleanUp(s), Refused, job);
    }
    SettledNext(s, Refused, job);
    assert LOST == Turn(None, Refused);
    assert Run(s, [], job) == Run(Next(s, LOST, job), [], job);
    if s.place.Unlinking? {
      assert Next(s, LOST, job) == CleanUp(s);
      assert Run(CleanUp(s), [], job) == Run(Next(CleanUp(s), LOST, job), [], job);
    }
  }

  lemma QuietCleanUp(s: State)
    requires Quiet(s)
    ensures Quiet(CleanUp(s))
  {
  }

  /** A rename or a link over nothing leaves a complete target that needs no interference filtering. */
  lemma PublishSettles(job: Job, sequence: nat)
    requires NotTemporary(job, sequence) && sequence < UINT64_LIMIT
    ensures var s := Stages(job, sequence)[6];
            var r := Call(s, Done(|job.contents|), job);
            && s.place == Publishing && Grounded(s, job)
            && Complete(r.dir, job.name, job.contents)
            && ((r.place.Unlinking? && Quiet(r)) || (r.place.SyncingDirectory? && Interfere(r, None) == r.dir))
  {
    hide TemporaryName;
    assert Following(sequence, 0) == sequence;
    var r := Call(Stages(job, sequence)[6], Done(|job.contents|), job);
    if job.force {
      assert r.dir.names == map[job.name := |job.contents|];
      assert Interfere(r, None).names == r.dir.names;
    }
  }

  // ---- the path

  /** The text behind the last slash. */
  function AfterLastSlash(path: string): string {
    if path == "" || path[|path| - 1] == '/' then "" else AfterLastSlash(path[..|path| - 1]) + [path[|path| - 1]]
  }

  /** The entry a path names, when `publish` accepts the path. */
  function Target(path: string): Option<string> {
    if path == "" || path[0] != '/' || 0 as char in path then None
    else
      var name := AfterLastSlash(path);
      if name == "" || name == "." || name == ".." then None else Some(name)
  }

  lemma {:induction false} TargetIsLastComponent(path: string)
    requires path != "" && path[0] == '/'
    ensures var name := AfterLastSlash(path);
            && '/' !in name && |name| < |path|
            && path[|path| - |name| - 1] == '/' && path[|path| - |name|..] == name
  {
    var last := path[|path| - 1];
    if last != '/' {
      var front := path[..|path| - 1];
      TargetIsLastComponent(front);
      var name := AfterLastSlash(front);
      assert path[|path| - |name| - 1..] == front[|front| - |name|..] + [last];
    }
  }

  // ---- the process

  datatype Seen = Missing | RegularFile | OtherFile | Unknown

  datatype Opened = Created | Exists | NotOpened

  datatype Wrote = Octets(count: nat) | Again | NotWritten

  /** The calling process and the directory it works on. */
  class Process {
    var dir: Directory
    var script: seq<Turn>
    var sequence: nat
    var temporary: string
    var ours: Option<nat>
    ghost var live: bool

    ghost function At(p: Place): State
      reads this
    {
      State(p, dir, sequence, temporary, ours, live)
    }

    constructor (dir: Directory, script: seq<Turn>, sequence: nat)
      ensures At(Opening) == Initial(dir, sequence) && this.script == script
    {
      this.dir, this.script, this.sequence, temporary, ours, live := dir, script, sequence, "", None, false;
    }

    /** Others act, and the kernel makes up its mind about the next call. */
    method Await() returns (a: Answer)
      modifies this`dir, this`script
      ensures a == Head(old(script)).answer && script == Tail(old(script))
      ensures dir == Interfere(old(At(Opening)), Head(old(script)).others)
      ensures forall p :: At(p) == Disturbed(old(At(p)), Head(old(script)))
      ensures old(ours.Some? && ours.value in dir.files) ==> ours.value in dir.files
    {
      ghost var s := At(Opening);
      var t := Head(script);
      var others := if t.others.Some? then t.others.value else dir;
      script := Tail(script);
      a := t.answer;
      if ours.None? || ours.value !in dir.files {
        dir := Directory(map n | n in others.names && others.names[n] in others.files :: others.names[n], others.files);
      } else {
        var i := ours.value;
        var files := others.files[i := dir.files[i]];
        var names := map n | n in others.names && others.names[n] in files && (others.names[n] == i ==> files[i].synced)
                       :: others.names[n];
        if temporary in dir.names && dir.names[temporary] == i {
          names := names[temporary := i];
        }
        dir := Directory(names, files);
      }
      assert dir == Interfere(s, t.others);
    }

    /** `open`, `fsync` or `close` on something the directory does not show. */
    method Plain() returns (ok: bool)
      modifies this`dir, this`script
      ensures ok == Head(old(script)).answer.Done? && script == Tail(old(script))
      ensures forall p :: At(p) == Disturbed(old(At(p)), Head(old(script)))
    {
      var a := Await();
      ok := a.Done?;
    }

    /** `fstatat`. */
    method Look(name: string) returns (seen: Seen)
      modifies this`dir, this`script
      ensures script == Tail(old(script))
      ensures forall p :: At(p) == Disturbed(old(At(p)), Head(old(script)))
      ensures seen == (if !Head(old(script)).answer.Done? then Unknown
                       else if name !in dir.names then Missing
                       else if dir.names[name] in dir.files && dir.files[dir.names[name]].kind == Regular then
                         RegularFile
                       else OtherFile)
    {
      var a := Await();
      if !a.Done? {
        seen := Unknown;
      } else if name !in dir.names {
        seen := Missing;
      } else if dir.names[name] in dir.files && dir.files[dir.names[name]].kind == Regular {
        seen := RegularFile;
      } else {
        seen := OtherFile;
      }
    }

    /** `openat` with `O_CREAT | O_EXCL`. */
    method OpenExclusive(name: string) returns (created: Opened)
      modifies this`dir, this`script, this`ours
      ensures script == Tail(old(script))
      ensures var t := Head(old(script));
              var d := Interfere(old(At(Opening)), t.others);
              if !t.answer.Done? then created == NotOpened && dir == d && ours == old(ours)
              else if name in d.names then created == Exists && dir == d && ours == old(ours)
              else if t.answer.count in d.files then created == NotOpened && dir == d && ours == old(ours)
              else && created == Created && ours == Some(t.answer.count)
                   && dir == Directory(d.names[name := t.answer.count],
                                       d.files[t.answer.count := File([], false, Regular)])
    {
      var a := Await();
      if !a.Done? {
        return NotOpened;
      }
      if name in dir.names {
        return Exists;
      }
      if a.count in dir.files {
        return NotOpened;
      }
      dir := Directory(dir.names[name := a.count], dir.files[a.count := File([], false, Regular)]);
      ours := Some(a.count);
      created := Created;
    }

    /** `write` of what is left of the contents. */
    method Put(job: Job, offset: nat) returns (wrote: Wrote)
      requires ours.Some? && ours.value in dir.files && offset < |job.contents|
      modifies this`dir, this`script
      ensures script == Tail(old(script)) && ours.value in dir.files
      ensures wrote.Octets? ==> offset + wrote.count <= |job.contents|
      ensures wrote == Again ==> old(script) != []
      ensures At(match wrote
                 case Again => Writing(offset)
                 case NotWritten => Cleaning
                 case Octets(n) => if n == 0 then Cleaning else AfterWrite(offset + n, job.contents))
              == Call(Disturbed(old(At(Writing(offset))), Head(old(script))), Head(old(script)).answer, job)
    {
      hide Rearranged;
      var a := Await();
      match a {
        case Interrupted => wrote := Again;
        case Refused => wrote := NotWritten;
        case Done(count) =>
          var n := if count < |job.contents| - offset then count else |job.contents| - offset;
          wrote := Octets(n);
          if n > 0 {
            var f := dir.files[ours.value];
            var longer := f.(data := f.data + job.contents[offset..offset + n], synced := false);
            dir := dir.(files := dir.files[ours.value := longer]);
          }
      }
    }

    /** `fsync` of the file. */
    method Sync() returns (ok: bool)
      requires ours.Some? && ours.value in dir.files
      modifies this`dir, this`script
      ensures script == Tail(old(script)) && ok == Head(old(script)).answer.Done?
      ensures var d := Interfere(old(At(Opening)), Head(old(script)).others);
              && ours.value in d.files
              && dir == if ok then d.(files := d.files[ours.value := d.files[ours.value].(synced := true)]) else d
    {
      var a := Await();
      ok := a.Done?;
      if ok {
        dir := dir.(files := dir.files[ours.value := dir.files[ours.value].(synced := true)]);
      }
    }

    /** `renameat` of the temporary entry over the target, or `linkat` of it beside. */
    method Expose(job: Job) returns (ok: bool)
      requires ours.Some? && ours.value in dir.files
      modifies this`dir, this`script, this`live
      ensures script == Tail(old(script))
      ensures var s := Call(old(At(Publishing)).(dir := Interfere(old(At(Publishing)), Head(old(script)).others)),
                            Head(old(script)).answer, job);
              && ok == (s.place != Cleaning) && At(s.place) == s
              && (ok ==> s.place == if job.force then SyncingDirectory else Unlinking)
    {
      var a := Await();
      if job.force {
        var folder := job.name in dir.names && dir.names[job.name] in dir.files
                      && dir.files[dir.names[job.name]].kind == Folder;
        if !a.Done? || folder {
          return false;
        }
        if job.name !in dir.names || dir.names[job.name] != ours.value {
          var names := map n | n in dir.names && n != temporary :: dir.names[n];
          dir := dir.(names := names[job.name := ours.value]);
        }
      } else {
        if !a.Done? || job.name in dir.names {
          return false;
        }
        dir := dir.(names := dir.names[job.name := ours.value]);
      }
      live := true;
      ok := true;
    }

    /** `unlinkat` of the temporary entry. */
    method Unlink() returns (ok: bool)
      modifies this`dir, this`script
      ensures script == Tail(old(script)) && ok == Head(old(script)).answer.Done?
      ensures var d := Interfere(old(At(Opening)), Head(old(script)).others);
              dir == if ok then d.(names := map n | n in d.names && n != temporary :: d.names[n]) else d
    {
      var a := Await();
      ok := a.Done?;
      if ok {
        dir := dir.(names := map n | n in dir.names && n != temporary :: dir.names[n]);
      }
    }

    method CleanUpAfter(ghost job: Job) returns (r: Result<()>)
      requires ours.Some? && ours.value in dir.files
      modifies this`dir, this`script
      ensures r == Failure(StateInvalid)
      ensures Run(old(At(Cleaning)), old(script), job) == At(Finished(r))
    {
      hide Rearranged, Run;
      RunOne(At(Cleaning), script, job);
      var _ := Unlink();
      r := Failure(StateInvalid);
      RunFinished(At(Finished(r)), script, job);
    }

    /** Up to 64 exclusive creations under fresh names. */
    method CreateTemporary(job: Job) returns (ok: bool)
      requires ours.None?
      modifies this`dir, this`script, this`sequence, this`temporary, this`ours
      ensures ok ==> ours.Some? && ours.value in dir.files
      ensures Run(old(At(Creating(0))), old(script), job)
              == if ok then Run(At(AfterWrite(0, job.contents)), script, job) else At(Finished(Failure(StateInvalid)))
    {
      hide Rearranged, TemporaryName, Rename, Link, Write, Inspect, Run;
      ghost var s, before := At(Creating(0)), script;
      var attempt := 0;
      var created := Exists;
      while attempt < ATTEMPTS && created == Exists
        invariant attempt <= ATTEMPTS
        invariant created == Created ==> ours.Some? && ours.value in dir.files
        invariant created == Exists ==> ours.None?
        invariant Run(s, before, job)
                  == if created == Created then Run(At(AfterWrite(0, job.contents)), script, job)
                     else if created == Exists && attempt < ATTEMPTS then Run(At(Creating(attempt)), script, job)
                     else At(Finished(Failure(StateInvalid)))
        decreases ATTEMPTS - attempt
      {
        RunOne(At(Creating(attempt)), script, job);
        NameDoesNotMatterYet(dir, temporary, TemporaryName(job.pid, sequence), Head(script).others);
        temporary := TemporaryName(job.pid, sequence);
        sequence := (sequence + 1) % UINT64_LIMIT;
        created := OpenExclusive(temporary);
        attempt := attempt + 1;
        RunFinished(At(Finished(Failure(StateInvalid))), script, job);
      }
      ok := created == Created;
    }

    /** The write loop: short writes go on where they stopped, interrupted ones are repeated. */
    method WriteAll(job: Job) returns (ok: bool)
      requires ours.Some? && ours.value in dir.files
      modifies this`dir, this`script
      ensures ours.value in dir.files
      ensures Run(old(At(AfterWrite(0, job.contents))), old(script), job)
              == Run(At(if ok then Syncing else Cleaning), script, job)
    {
      hide Rearranged, Run, Call;
      ghost var s, before := At(AfterWrite(0, job.contents)), script;
      var offset := 0;
      while offset < |job.contents|
        invariant offset <= |job.contents| && ours.value in dir.files
        invariant Run(s, before, job) == Run(At(AfterWrite(offset, job.contents)), script, job)
        decreases |job.contents| - offset, |script|
      {
        RunOne(At(Writing(offset)), script, job);
        var wrote := Put(job, offset);
        match wrote {
          case Again =>
          case NotWritten => return false;
          case Octets(count) =>
            if count == 0 {
              return false;
            }
            offset := offset + count;
        }
      }
      ok := true;
    }

    method SynchronizeAndExpose(job: Job) returns (r: Result<()>)
      requires ours.Some? && ours.value in dir.files
      modifies this`dir, this`script, this`live
      ensures Run(old(At(Syncing)), old(script), job) == At(Finished(r))
    {
      hide Rearranged, Run, Rename, Link, Write, Create, Inspect;
      RunOne(At(Syncing), script, job);
      var synced := Sync();
      if !synced {
        r := CleanUpAfter(job);
        return;
      }
      RunOne(At(Closing), script, job);
      var closed := Plain();
      if !closed {
        r := CleanUpAfter(job);
        return;
      }
      r := ExposeAndSynchronize(job);
    }

    /** The rename, or the link and the removal of the temporary entry, and the directory. */
    method ExposeAndSynchronize(job: Job) returns (r: Result<()>)
      requires ours.Some? && ours.value in dir.files
      modifies this`dir, this`script, this`live
      ensures Run(old(At(Publishing)), old(script), job) == At(Finished(r))
    {
      hide Rearranged, Run, Rename, Link, Write, Create, Inspect;
      RunOne(At(Publishing), script, job);
      var exposed := Expose(job);
      if !exposed {
        r := CleanUpAfter(job);
        return;
      }
      if !job.force {
        RunOne(At(Unlinking), script, job);
        var unlinked := Unlink();
        if !unlinked {
          r := CleanUpAfter(job);
          return;
        }
      }
      RunOne(At(SyncingDirectory), script, job);
      var durable := Plain();
      r := if durable then Success(()) else Failure(StateInvalid);
      RunFinished(At(Finished(r)), script, job);
    }

    method Publish(path: string, contents: Bytes, force: bool, pid: nat) returns (r: Result<()>)
      requires ours.None? && !live && temporary == ""
      modifies this
      ensures Target(path).None? ==>
                r == Failure(StateInvalid) && At(Opening) == old(At(Opening)) && script == old(script)
      ensures Target(path).Some? ==>
                At(Finished(r)) == Run(old(Initial(dir, sequence)), old(script),
                                       Job(Target(path).value, contents, force, pid))
    {
      hide Rearranged, AfterWrite, Run;
      if path == "" || path[0] != '/' || 0 as char in path {
        return Failure(StateInvalid);
      }
      var name := AfterLastSlash(path);
      if name == "" || name == "." || name == ".." {
        return Failure(StateInvalid);
      }
      var job := Job(name, contents, force, pid);
      ghost var s, before := At(Opening), script;
      RunOne(At(Opening), script, job);
      var entered := Plain();
      if !entered {
        RunFinished(At(Finished(Failure(StateInvalid))), script, job);
        return Failure(StateInvalid);
      }
      assert Run(s, before, job) == Run(At(Inspecting), script, job);
      RunOne(At(Inspecting), script, job);
      var seen := Look(name);
      if seen == Unknown || seen == OtherFile || (seen == RegularFile && !force) {
        RunFinished(At(Finished(Failure(StateInvalid))), script, job);
        return Failure(StateInvalid);
      }
      assert Run(s, before, job) == Run(At(Creating(0)), script, job);
      var created := CreateTemporary(job);
      if !created {
        return Failure(StateInvalid);
      }
      var written := WriteAll(job);
      if !written {
        r := CleanUpAfter(job);
        return;
      }
      r := SynchronizeAndExpose(job);
    }
  }
}
