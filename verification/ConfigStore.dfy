/** The configuration file, its recovery copy, and any number of processes that
    load and save it. */
module ConfigStore {
  import opened Common
  import opened ConfigMerge

  datatype FileState = Absent | Unreadable | Good(config: Config)

  /** The main file, its backup, and the temporary file of the save under way. */
  datatype Image = Image(main: FileState, backup: FileState, temp: FileState)

  /** `read_config`: an absent file is the default configuration. */
  function Read(f: FileState): Option<Config> {
    match f
    case Absent => Some(DEFAULT_CONFIG)
    case Unreadable => None
    case Good(config) => Some(config)
  }

  /** Without a file there are no servers, tokens, keys or selection, and the sound is
      the default one. */
  lemma AbsentHoldsNothing(key: Key)
    ensures Read(Absent).Some?
    ensures Get(Read(Absent).value, key)
            == match key
               case ServerKey(_) => HeldServer(None)
               case TokenKey(_) => HeldText(None)
               case SigningKey(_) => HeldKey(None)
               case SelectionKey => HeldText(None)
               case SoundKey => HeldText(Some("default"))
  {
  }

  datatype Loaded = Loaded(config: Config, recovered: bool)

  /** `Store::load`: the backup is read only if the main file is unreadable. */
  function LoadFrom(image: Image): Option<Loaded> {
    if Read(image.main).Some? then Some(Loaded(Read(image.main).value, false))
    else if image.backup == Absent || Read(image.backup).None? then None
    else Some(Loaded(Read(image.backup).value, true))
  }

  /** Some load succeeds. */
  ghost predicate Loadable(image: Image) {
    image.main != Unreadable || image.backup.Good?
  }

  function Current(image: Image): Config
    requires Loadable(image)
  {
    LoadFrom(image).value.config
  }

  /** What a save merges into. */
  function MergeTarget(image: Image, recovery: bool): Option<Config> {
    if Read(image.main).Some? then Read(image.main)
    else if recovery then Read(image.backup)
    else None
  }

  // ----- One save, file operation by file operation -----

  /** Whether a save copies the main file to the backup first. */
  predicate CopiesBackup(image: Image, recovery: bool) {
    image.main != Absent && !recovery
  }

  /** The number of file operations up to and including the rename. */
  function RenameStep(image: Image, recovery: bool): nat {
    if CopiesBackup(image, recovery) then 5 else 3
  }

  /** The files after `n` operations: create and fill the temporary file, copy the
      main file over the backup (which first empties it), rename, sync the
      directory. */
  function AfterSteps(image: Image, recovery: bool, merged: Config, n: nat): Image {
    var copies := CopiesBackup(image, recovery);
    if n == 0 then image
    else if n == 1 then image.(temp := Unreadable)
    else if n < RenameStep(image, recovery) then
      Image(image.main, if copies && n == 3 then Unreadable else if copies && n == 4 then image.main else image.backup,
            Good(merged))
    else Image(Good(merged), if copies then image.main else image.backup, Absent)
  }

  function SaveSteps(image: Image, recovery: bool): nat {
    RenameStep(image, recovery) + 1
  }

  /** The images a save goes through, in order. */
  function Stages(image: Image, recovery: bool, merged: Config, n: nat): seq<Image> {
    seq(n, i requires 0 <= i < n => AfterSteps(image, recovery, merged, i + 1))
  }

  lemma StagesUnfold(image: Image, recovery: bool, merged: Config)
    ensures forall n: nat :: Stages(image, recovery, merged, n + 1)
              == Stages(image, recovery, merged, n) + [AfterSteps(image, recovery, merged, n + 1)]
  {
  }

  /** The directory with the configuration. Every operation leaves its image in
      `trace`. */
  class Files {
    var image: Image
    ghost var trace: seq<Image>

    constructor (image: Image)
      ensures this.image == image && trace == []
    {
      this.image := image;
      trace := [];
    }

    method Put(next: Image)
      modifies this
      ensures image == next && trace == old(trace) + [next]
    {
      image := next;
      trace := trace + [next];
    }

    /** What other processes did. */
    method Become(next: Image)
      modifies this
      ensures image == next && trace == old(trace)
    {
      image := next;
    }

    method CreateTemp()
      modifies this
      ensures image == old(image).(temp := Unreadable) && trace == old(trace) + [image]
    {
      Put(image.(temp := Unreadable));
    }

    method WriteTemp(config: Config)
      modifies this
      ensures image == old(image).(temp := Good(config)) && trace == old(trace) + [image]
    {
      Put(image.(temp := Good(config)));
    }

    method TruncateBackup()
      modifies this
      ensures image == old(image).(backup := Unreadable) && trace == old(trace) + [image]
    {
      Put(image.(backup := Unreadable));
    }

    method CopyMainToBackup()
      modifies this
      ensures image == old(image).(backup := old(image).main) && trace == old(trace) + [image]
    {
      Put(image.(backup := image.main));
    }

    method RenameTemp()
      modifies this
      ensures image == old(image).(main := old(image).temp, temp := Absent) && trace == old(trace) + [image]
    {
      Put(image.(main := image.temp, temp := Absent));
    }

    method SyncDirectory()
      modifies this
      ensures image == old(image) && trace == old(trace) + [image]
    {
      Put(image);
    }

    method RemoveTemp()
      modifies this
      ensures image == old(image).(temp := Absent) && trace == old(trace)
    {
      image := image.(temp := Absent);
    }
  }

  /** One process's store. */
  class Store {
    const files: Files
    var baseline: Config
    var recovery: bool

    constructor (files: Files)
      ensures this.files == files && baseline == DEFAULT_CONFIG && !recovery
    {
      this.files := files;
      baseline := DEFAULT_CONFIG;
      recovery := false;
    }

    /** `Store::load`, which takes no lock: `meanwhile` is what other processes make
        of the files between its two reads. */
    method Load(meanwhile: Image -> Image) returns (config: Option<Config>)
      modifies this, files
      ensures var first := old(files.image);
              if first.main != Unreadable then
                config == Read(first.main) && files.image == first && recovery == old(recovery)
              else
                && files.image == meanwhile(first)
                && config == (if files.image.backup == Absent then None else Read(files.image.backup))
                && recovery == (old(recovery) || config.Some?)
      ensures baseline == if config.Some? then config.value else old(baseline)
    {
      config := Read(files.image.main);
      if config.None? {
        files.Become(meanwhile(files.image));
        if files.image.backup == Absent { return None; }
        config := Read(files.image.backup);
        if config.None? { return None; }
        recovery := true;
      }
      baseline := config.value;
    }

    /** `Store::save_locked`, of which `budget` file operations succeed. The trace
        gains one image per operation: a crash leaves the last of them. */
    method SaveLocked(config: Config, budget: nat) returns (saved: bool)
      modifies this, files
      ensures var (target, before) := (MergeTarget(old(files.image), old(recovery)), old(files.image).(temp := Absent));
              && recovery == old(recovery)
              && (target.None? ==> !saved && files.image == old(files.image) && files.trace == old(files.trace))
              && (target.Some? ==>
                    var merged := Merge(old(baseline), config, target.value);
                    var n := SaveSteps(before, recovery);
                    && (saved <==> budget >= n)
                    && files.trace == old(files.trace) + Stages(before, recovery, merged, if saved then n else budget)
                    && files.image
                       == AfterSteps(before, recovery, merged, if saved then n else budget).(temp := Absent))
      ensures baseline == if saved then config else old(baseline)
      ensures saved ==>
                && MergeTarget(old(files.image), recovery).Some? && files.image.temp == Absent
                && files.image.main
                   == Good(Merge(old(baseline), config, MergeTarget(old(files.image), recovery).value))
                && files.image.backup
                   == if old(files.image.main).Good? && !recovery then old(files.image.main)
                      else old(files.image.backup)
    {
      hide Merge, Stages;
      var disk := Read(files.image.main);
      if disk.None? && recovery { disk := Read(files.image.backup); }
      if disk.None? { return false; }
      var merged := MergeConfig(baseline, config, disk.value);
      // A fresh temporary name: whatever an earlier crash left is never read.
      files.RemoveTemp();
      saved := Replace(merged, budget);
      if !saved { files.RemoveTemp(); }
      if saved { baseline := config; }
    }

    /** The file operations of a save, up to the first that fails. */
    method Replace(merged: Config, budget: nat) returns (done: bool)
      modifies files
      ensures var before, n := old(files.image), SaveSteps(old(files.image), recovery);
              && (done <==> budget >= n)
              && files.image == AfterSteps(before, recovery, merged, if done then n else budget)
              && files.trace == old(files.trace) + Stages(before, recovery, merged, if done then n else budget)
    {
      ghost var before := files.image;
      var copies := files.image.main != Absent && !recovery;
      if budget == 0 { return false; }
      files.CreateTemp();
      if budget == 1 { return false; }
      files.WriteTemp(merged);
      if budget == 2 { return false; }
      StagesUnfold(before, recovery, merged);
      if copies {
        files.TruncateBackup();
        if budget == 3 { return false; }
        files.CopyMainToBackup();
        if budget == 4 { return false; }
      }
      hide Stages;
      files.RenameTemp();
      if budget == (if copies then 5 else 3) { return false; }
      files.SyncDirectory();
      done := true;
    }
  }

  /** Crash safety: after any number of operations the configuration still loads,
      as it was until the rename, as merged from then on; and a process in recovery
      never touches the backup. */
  lemma CrashSafe(image: Image, recovery: bool, merged: Config, n: nat)
    requires Loadable(image) && MergeTarget(image, recovery).Some?
    ensures MergeTarget(image, recovery) == Some(Current(image))
    ensures var after := AfterSteps(image, recovery, merged, n);
            && Loadable(after)
            && Current(after) == (if n < RenameStep(image, recovery) then Current(image) else merged)
            && (recovery ==> after.backup == image.backup)
            && (after.backup == image.backup || after.backup == image.main || after.main.Good?)
  {
  }

  /** A save goes ahead exactly if the main file can be read or the process loaded
      from the backup. */
  lemma SavesIff(image: Image, recovery: bool)
    requires Loadable(image)
    ensures MergeTarget(image, recovery).Some? <==> image.main != Unreadable || recovery
  {
  }

  /** What a save leaves in the backup: the main file it replaces, unless there is none
      or the process works from the backup itself. Only a crash during the copy leaves
      neither the old backup nor the new one. */
  lemma SaveBacksUp(image: Image, recovery: bool, merged: Config, n: nat)
    ensures var (after, copied) := (AfterSteps(image, recovery, merged, n), image.main != Absent && !recovery);
            && (!copied || n < 3 ==> after.backup == image.backup)
            && (copied && n == 3 ==> after.backup == Unreadable && after.main == image.main)
            && (copied && n >= 4 ==> after.backup == image.main)
            && (after.main == image.main || after.main == Good(merged))
            && (n >= (if copied then 5 else 3) ==> after.main == Good(merged))
  {
  }

  // ----- Runs of many processes -----

  /** `waiting`: a load found the main file unreadable and has yet to read the backup. */
  datatype Process = Process(baseline: Config, recovery: bool, waiting: bool)

  datatype System = System(image: Image, processes: map<nat, Process>)

  /** The two reads of a load, a save of which `steps` operations take place, a
      restart. A read of the backup is torn when it meets another process's copy. */
  datatype Event =
    | ReadMain(id: nat)
    | ReadBackup(id: nat, torn: bool)
    | Save(id: nat, config: Config, steps: nat)
    | Restart(id: nat)

  const FRESH := Process(DEFAULT_CONFIG, false, false)

  function ProcessOf(s: System, id: nat): Process {
    if id in s.processes then s.processes[id] else FRESH
  }

  function WithProcess(s: System, id: nat, process: Process): System {
    s.(processes := s.processes[id := process])
  }

  function BackupSeen(s: System, torn: bool): Option<Config> {
    if torn || s.image.backup == Absent then None else Read(s.image.backup)
  }

  function Step(s: System, e: Event): System {
    var process := ProcessOf(s, e.id);
    match e
    case Restart(id) => WithProcess(s, id, FRESH)
    case ReadMain(id) =>
      var main := Read(s.image.main);
      WithProcess(s, id, if main.None? then process.(waiting := true)
                         else process.(baseline := main.value, waiting := false))
    case ReadBackup(id, torn) =>
      if !process.waiting then s
      else
        var backup := BackupSeen(s, torn);
        WithProcess(s, id, if backup.None? then process.(waiting := false) else Process(backup.value, true, false))
    case Save(id, config, steps) =>
      var target := MergeTarget(s.image, process.recovery);
      if target.None? then s
      else
        var before := s.image.(temp := Absent);
        var merged := Merge(process.baseline, config, target.value);
        var after := s.(image := AfterSteps(before, process.recovery, merged, steps));
        if steps < SaveSteps(before, process.recovery) then after
        else WithProcess(after, id, process.(baseline := config))
  }

  function Run(s: System, events: seq<Event>): System {
    if events == [] then s else Step(Run(s, events[..|events| - 1]), events[|events| - 1])
  }

  /** Saved lists have no two different entries of one server. */
  ghost predicate UniformSaves(events: seq<Event>) {
    forall i :: 0 <= i < |events| && events[i].Save? ==> UniformIds(events[i].config.servers)
  }

  /** The event renames a file into place in this state. */
  predicate Commits(s: System, e: Event) {
    && e.Save?
    && MergeTarget(s.image, ProcessOf(s, e.id).recovery).Some?
    && e.steps >= RenameStep(s.image, ProcessOf(s, e.id).recovery)
  }

  /** The event is a save whose process changed this key since its own last load
      or acknowledged save. */
  predicate Edits(s: System, e: Event, key: Key) {
    Commits(s, e) && Get(e.config, key) != Get(ProcessOf(s, e.id).baseline, key)
  }

  /** The `i`-th event of a run edits the key. */
  predicate EditsAt(s: System, events: seq<Event>, i: nat, key: Key)
    requires i < |events|
  {
    Edits(Run(s, events[..i]), events[i], key)
  }

  lemma SavedImage(s: System, e: Event)
    requires Loadable(s.image) && e.Save?
    ensures var (process, before) := (ProcessOf(s, e.id), s.image.(temp := Absent));
            var merged := Merge(process.baseline, e.config, Current(s.image));
            Step(s, e).image == if MergeTarget(before, process.recovery).None? then s.image
                                else AfterSteps(before, process.recovery, merged, e.steps)
  {
    hide Merge, AfterSteps;
  }

  lemma StepLoadable(s: System, e: Event)
    requires Loadable(s.image)
    ensures Loadable(Step(s, e).image)
  {
    if e.Save? {
      var process := ProcessOf(s, e.id);
      var before := s.image.(temp := Absent);
      SavedImage(s, e);
      if MergeTarget(before, process.recovery).Some? {
        CrashSafe(before, process.recovery, Merge(process.baseline, e.config, Current(s.image)), e.steps);
      }
      hide Merge, AfterSteps, Step;
    }
  }

  /** What one event does to one key on disk. */
  lemma StepPointwise(s: System, e: Event, key: Key)
    requires Loadable(s.image) && (e.Save? ==> UniformIds(e.config.servers))
    ensures Loadable(Step(s, e).image)
    ensures Get(Current(Step(s, e).image), key)
            == if Edits(s, e, key) then Get(e.config, key) else Get(Current(s.image), key)
  {
    StepLoadable(s, e);
    if e.Save? {
      var process := ProcessOf(s, e.id);
      var before := s.image.(temp := Absent);
      var merged := Merge(process.baseline, e.config, Current(s.image));
      assert Loadable(before) && Current(before) == Current(s.image);
      SavedImage(s, e);
      if MergeTarget(before, process.recovery).Some? {
        CrashSafe(before, process.recovery, merged, e.steps);
        MergePointwise(process.baseline, e.config, Current(s.image), key);
      }
      hide Merge, AfterSteps, Get, UniformIds, Step, Current, Loadable;
    }
  }

  /** No run of loads, saves, crashes and restarts makes the configuration
      unreadable, whatever is saved. */
  lemma {:induction false} AlwaysLoadable(s: System, events: seq<Event>)
    requires Loadable(s.image)
    ensures Loadable(Run(s, events).image)
  {
    if events != [] {
      var init := events[..|events| - 1];
      AlwaysLoadable(s, init);
      StepLoadable(Run(s, init), events[|events| - 1]);
    }
  }

  /** No event from `i` on edits the key. */
  ghost predicate UneditedFrom(s: System, events: seq<Event>, i: nat, key: Key) {
    forall j :: i <= j < |events| ==> !EditsAt(s, events, j, key)
  }

  lemma EditsAtPrefix(s: System, events: seq<Event>, n: nat, i: nat, key: Key)
    requires i < n <= |events|
    ensures EditsAt(s, events[..n], i, key) == EditsAt(s, events, i, key)
  {
    assert events[..n][..i] == events[..i];
  }

  lemma UneditedPrefix(s: System, events: seq<Event>, i: nat, key: Key)
    requires i < |events| && UneditedFrom(s, events, i, key)
    ensures UneditedFrom(s, events[..|events| - 1], i, key) && !EditsAt(s, events, |events| - 1, key)
  {
    var n := |events| - 1;
    hide EditsAt;
    forall j | i <= j < n ensures !EditsAt(s, events[..n], j, key) {
      EditsAtPrefix(s, events, n, j, key);
    }
  }

  /** A key that no save of a run edits keeps its value. */
  lemma {:induction false} UneditedKeyKept(s: System, events: seq<Event>, key: Key)
    requires Loadable(s.image) && UniformSaves(events) && UneditedFrom(s, events, 0, key)
    ensures Loadable(Run(s, events).image)
    ensures Get(Current(Run(s, events).image), key) == Get(Current(s.image), key)
  {
    if events != [] {
      var n := |events| - 1;
      UneditedPrefix(s, events, 0, key);
      UneditedKeyKept(s, events[..n], key);
      StepPointwise(Run(s, events[..n]), events[n], key);
      hide Step, Current, Get, Edits, Loadable, UneditedFrom;
    }
  }

  /** In every run each key on disk holds the value of the latest save that edited it. */
  lemma {:induction false} LatestEditWins(s: System, events: seq<Event>, key: Key, i: nat)
    requires Loadable(s.image) && UniformSaves(events)
    requires i < |events| && EditsAt(s, events, i, key) && UneditedFrom(s, events, i + 1, key)
    ensures Loadable(Run(s, events).image)
    ensures Get(Current(Run(s, events).image), key) == Get(events[i].config, key)
  {
    var n := |events| - 1;
    var init := events[..n];
    AlwaysLoadable(s, init);
    StepPointwise(Run(s, init), events[n], key);
    hide Step, Current, Get, Edits, Loadable, UneditedFrom;
    if i < n {
      UneditedPrefix(s, events, i + 1, key);
      EditsAtPrefix(s, events, n, i, key);
      LatestEditWins(s, init, key, i);
    }
  }

  /** The event resets what its process believes to be on disk. */
  predicate Rebases(s: System, e: Event) {
    match e
    case Restart(_) => true
    case ReadMain(_) => Read(s.image.main).Some?
    case ReadBackup(id, torn) => ProcessOf(s, id).waiting && BackupSeen(s, torn).Some?
    case Save(id, _, steps) =>
      var recovery := ProcessOf(s, id).recovery;
      MergeTarget(s.image, recovery).Some? && steps >= SaveSteps(s.image, recovery)
  }

  /** What the process then believes. */
  function Seen(s: System, e: Event): Config
    requires Rebases(s, e)
  {
    match e
    case Restart(_) => DEFAULT_CONFIG
    case ReadMain(_) => Read(s.image.main).value
    case ReadBackup(_, torn) => BackupSeen(s, torn).value
    case Save(_, config, _) => config
  }

  lemma StepBaseline(s: System, e: Event, id: nat)
    ensures ProcessOf(Step(s, e), id).baseline
            == if e.id == id && Rebases(s, e) then Seen(s, e) else ProcessOf(s, id).baseline
  {
    hide Merge, AfterSteps, BackupSeen, MergeTarget;
  }

  predicate RebasesAt(s: System, events: seq<Event>, i: nat, id: nat)
    requires i < |events|
  {
    events[i].id == id && Rebases(Run(s, events[..i]), events[i])
  }

  lemma RebasesAtPrefix(s: System, events: seq<Event>, n: nat, i: nat, id: nat)
    requires i < n <= |events|
    ensures RebasesAt(s, events[..n], i, id) == RebasesAt(s, events, i, id)
    ensures Run(s, events[..n][..i]) == Run(s, events[..i]) && events[..n][i] == events[i]
  {
    assert events[..n][..i] == events[..i];
  }

  /** No event from `i` on resets what the process believes. */
  ghost predicate SteadyFrom(s: System, events: seq<Event>, i: nat, id: nat) {
    forall j :: i <= j < |events| ==> !RebasesAt(s, events, j, id)
  }

  lemma SteadyPrefix(s: System, events: seq<Event>, i: nat, id: nat)
    requires i < |events| && SteadyFrom(s, events, i, id)
    ensures SteadyFrom(s, events[..|events| - 1], i, id) && !RebasesAt(s, events, |events| - 1, id)
  {
    var n := |events| - 1;
    hide RebasesAt;
    forall j | i <= j < n ensures !RebasesAt(s, events[..n], j, id) {
      RebasesAtPrefix(s, events, n, j, id);
    }
  }

  /** The base of a merge is what the process saw at its latest load, acknowledged
      save or restart, whatever other processes did in between. */
  lemma {:induction false} BaselineIsLastSeen(s: System, events: seq<Event>, id: nat, i: nat)
    requires i < |events| && RebasesAt(s, events, i, id) && SteadyFrom(s, events, i + 1, id)
    ensures ProcessOf(Run(s, events), id).baseline == Seen(Run(s, events[..i]), events[i])
  {
    var n := |events| - 1;
    var init := events[..n];
    StepBaseline(Run(s, init), events[n], id);
    hide Step, ProcessOf, Seen, Rebases, SteadyFrom;
    if i < n {
      SteadyPrefix(s, events, i + 1, id);
      RebasesAtPrefix(s, events, n, i, id);
      BaselineIsLastSeen(s, init, id, i);
    }
  }

  // ----- What an unlocked load sees -----

  /** A backup that can be read is the old one or a copy of a readable main file. */
  lemma StepBackup(s: System, e: Event)
    ensures var after := Step(s, e).image;
            after.backup.Good? ==> after.backup == s.image.backup || after.backup == s.image.main
  {
    hide Merge;
  }

  /** The main file was unreadable at `i`. */
  predicate MissesAt(s: System, events: seq<Event>, i: nat, id: nat)
    requires i < |events|
  {
    events[i] == ReadMain(id) && Run(s, events[..i]).image.main == Unreadable
  }

  /** The load whose read is the `j`-th event began at `i`. */
  predicate BeganAt(s: System, events: seq<Event>, i: nat, j: nat, id: nat)
    requires i <= j < |events|
  {
    if events[j].ReadMain? then i == j else MissesAt(s, events, i, id)
  }

  ghost predicate CurrentAt(s: System, events: seq<Event>, k: nat, config: Config)
    requires k <= |events|
  {
    Loadable(Run(s, events[..k]).image) && Current(Run(s, events[..k]).image) == config
  }

  /** Which file holds the current configuration. */
  lemma CurrentFile(image: Image)
    ensures image.main.Good? ==> Loadable(image) && Current(image) == image.main.config
    ensures Loadable(image) && image.main == Unreadable ==> image.backup.Good? && Current(image) == image.backup.config
  {
  }

  /** From a moment at which the main file is unreadable on, a readable backup holds
      what was the current configuration at some moment since. */
  lemma {:induction false} BackupWasCurrent(s: System, events: seq<Event>, i: nat, j: nat)
    requires Loadable(s.image) && i <= j <= |events| && Run(s, events[..i]).image.main == Unreadable
    ensures var backup := Run(s, events[..j]).image.backup;
            backup.Good? ==> exists k :: i <= k <= j && CurrentAt(s, events, k, backup.config)
  {
    if j == i {
      AlwaysLoadable(s, events[..i]);
      CurrentFile(Run(s, events[..i]).image);
      hide Step, Run, Current, Loadable;
      assert CurrentAt(s, events, i, Run(s, events[..i]).image.backup.config);
    } else {
      BackupWasCurrent(s, events, i, j - 1);
      var before := Run(s, events[..j - 1]);
      assert events[..j][..j - 1] == events[..j - 1];
      assert Run(s, events[..j]) == Step(before, events[j - 1]);
      StepBackup(before, events[j - 1]);
      CurrentFile(before.image);
      hide Step, Run, Current, Loadable;
      if before.image.main.Good? { assert CurrentAt(s, events, j - 1, before.image.main.config); }
    }
  }

  /** A load waits for the backup after it missed the main file and until it read the
      backup, and a process has recovered once one of its loads took the backup; a restart
      forgets both. */
  lemma StepProcess(s: System, e: Event, id: nat)
    ensures ProcessOf(Step(s, e), id).waiting <==>
              || (e == ReadMain(id) && s.image.main == Unreadable)
              || (ProcessOf(s, id).waiting && (e.id == id ==> e.Save?))
    ensures ProcessOf(Step(s, e), id).recovery <==>
              || (e == ReadBackup(id, false) && ProcessOf(s, id).waiting && s.image.backup.Good?)
              || (ProcessOf(s, id).recovery && e != Restart(id))
  {
    hide Merge, AfterSteps, MergeTarget, SaveSteps;
  }

  /** The `i`-th event is a load of the process taking the backup. */
  predicate TakesBackupAt(s: System, events: seq<Event>, i: nat, id: nat)
    requires i < |events|
  {
    var before := Run(s, events[..i]);
    events[i] == ReadBackup(id, false) && ProcessOf(before, id).waiting && before.image.backup.Good?
  }

  ghost predicate RecoveredAt(s: System, events: seq<Event>, i: int, id: nat) {
    0 <= i < |events| && TakesBackupAt(s, events, i, id) && forall j :: i < j < |events| ==> events[j] != Restart(id)
  }

  lemma RecoveredPrefix(s: System, events: seq<Event>, i: int, id: nat)
    requires events != []
    ensures var n := |events| - 1;
            i < n ==> (RecoveredAt(s, events, i, id) <==>
                       RecoveredAt(s, events[..n], i, id) && events[n] != Restart(id))
  {
    var n := |events| - 1;
    if 0 <= i < n {
      assert events[..n][..i] == events[..i];
      assert TakesBackupAt(s, events[..n], i, id) == TakesBackupAt(s, events, i, id);
      hide TakesBackupAt;
      assert forall j :: i < j < n ==> events[..n][j] == events[j];
    }
  }

  /** In every run a process works from the backup exactly if one of its loads since its
      last restart took it. */
  lemma {:induction false} RecoveredIff(s: System, events: seq<Event>, id: nat)
    requires !ProcessOf(s, id).recovery
    ensures ProcessOf(Run(s, events), id).recovery <==> exists i :: RecoveredAt(s, events, i, id)
  {
    if events != [] {
      var n := |events| - 1;
      var init := events[..n];
      StepProcess(Run(s, init), events[n], id);
      assert TakesBackupAt(s, events, n, id) ==> RecoveredAt(s, events, n, id);
      assert RecoveredAt(s, events, n, id) ==> TakesBackupAt(s, events, n, id);
      hide Step, RecoveredAt, ProcessOf;
      RecoveredIff(s, init, id);
      forall i ensures i < n ==> (RecoveredAt(s, events, i, id) <==>
                                  RecoveredAt(s, init, i, id) && events[n] != Restart(id))
      {
        RecoveredPrefix(s, events, i, id);
      }
      RecoveredInRange(s, events, id);
      RecoveredInRange(s, init, id);
    }
  }

  lemma RecoveredInRange(s: System, events: seq<Event>, id: nat)
    ensures forall i :: RecoveredAt(s, events, i, id) ==> 0 <= i < |events|
  {
  }

  lemma {:induction false} WaitingSince(s: System, events: seq<Event>, id: nat, j: nat) returns (i: nat)
    requires j <= |events| && !ProcessOf(s, id).waiting && ProcessOf(Run(s, events[..j]), id).waiting
    ensures i < j && MissesAt(s, events, i, id)
  {
    assert j > 0;
    assert events[..j][..j - 1] == events[..j - 1];
    var before := Run(s, events[..j - 1]);
    StepProcess(before, events[j - 1], id);
    if ProcessOf(before, id).waiting {
      i := WaitingSince(s, events, id, j - 1);
    } else {
      i := j - 1;
    }
  }

  /** A load takes no lock, so saves may fall between its two reads. What it returns
      was nevertheless the current configuration at some moment between them. */
  lemma LoadWasCurrent(s: System, events: seq<Event>, id: nat, j: nat)
    requires Loadable(s.image) && j < |events| && !ProcessOf(s, id).waiting
    requires events[j].id == id && (events[j].ReadMain? || events[j].ReadBackup?)
    requires Rebases(Run(s, events[..j]), events[j])
    ensures exists i, k :: 0 <= i <= k <= j && BeganAt(s, events, i, j, id)
              && CurrentAt(s, events, k, Seen(Run(s, events[..j]), events[j]))
  {
    AlwaysLoadable(s, events[..j]);
    var config := Seen(Run(s, events[..j]), events[j]);
    if events[j].ReadMain? {
      assert BeganAt(s, events, j, j, id) && CurrentAt(s, events, j, config);
    } else {
      var i := WaitingSince(s, events, id, j);
      BackupWasCurrent(s, events, i, j);
      assert BeganAt(s, events, i, j, id);
    }
  }

  // ----- What the backup holds -----

  /** The event is a save that begins to replace the backup: its process did not recover
      and there is a main file. */
  predicate Recopies(s: System, e: Event) {
    e.Save? && s.image.main.Good? && !ProcessOf(s, e.id).recovery && e.steps >= 3
  }

  predicate RecopiesAt(s: System, events: seq<Event>, i: nat)
    requires i < |events|
  {
    Recopies(Run(s, events[..i]), events[i])
  }

  lemma StepBacksUp(s: System, e: Event)
    ensures var after := Step(s, e).image;
            && (!Recopies(s, e) ==> after.backup == s.image.backup)
            && (Recopies(s, e) && e.steps >= 4 ==> after.backup == s.image.main)
  {
    if e.Save? {
      var process := ProcessOf(s, e.id);
      var target := MergeTarget(s.image, process.recovery);
      if target.Some? {
        var merged := Merge(process.baseline, e.config, target.value);
        SaveBacksUp(s.image.(temp := Absent), process.recovery, merged, e.steps);
      }
    }
    hide Merge, AfterSteps;
  }

  /** Should the main file be damaged after the `i`-th event, a save that copied it, and
      before another save copies it again, a load recovers the configuration that was
      current just before that save. */
  lemma DamageRecovers(s: System, events: seq<Event>, i: nat)
    requires i < |events| && RecopiesAt(s, events, i) && events[i].steps >= 4
    requires forall j :: i < j < |events| ==> !RecopiesAt(s, events, j)
    ensures var (before, after) := (Run(s, events[..i]).image, Run(s, events).image);
            && Loadable(before)
            && after.backup == Good(Current(before))
            && LoadFrom(after.(main := Unreadable)) == Some(Loaded(Current(before), true))
  {
    var before := Run(s, events[..i]).image;
    CurrentFile(before);
    hide Step, Run;
    CopyStands(s, events, i);
    BackupRecovers(Run(s, events).image, Current(before));
  }

  lemma BackupRecovers(image: Image, config: Config)
    requires image.backup == Good(config)
    ensures LoadFrom(image.(main := Unreadable)) == Some(Loaded(config, true))
  {
  }

  lemma RecopiesAtPrefix(s: System, events: seq<Event>, n: nat, i: nat)
    requires i < n <= |events|
    ensures RecopiesAt(s, events[..n], i) == RecopiesAt(s, events, i)
    ensures events[..n][..i] == events[..i] && events[..n][i] == events[i]
  {
    assert events[..n][..i] == events[..i];
  }

  /** The copy stands until another save copies. */
  lemma {:induction false} CopyStands(s: System, events: seq<Event>, i: nat)
    requires i < |events| && RecopiesAt(s, events, i) && events[i].steps >= 4
    requires forall j :: i < j < |events| ==> !RecopiesAt(s, events, j)
    ensures Run(s, events).image.backup == Run(s, events[..i]).image.main
  {
    var n := |events| - 1;
    var init := events[..n];
    StepBacksUp(Run(s, init), events[n]);
    assert Run(s, events) == Step(Run(s, init), events[n]);
    hide Step, Run, Recopies;
    if i < n {
      RecopiesAtPrefix(s, events, n, i);
      forall j | i < j < n ensures !RecopiesAt(s, init, j) {
        RecopiesAtPrefix(s, events, n, j);
      }
      assert !RecopiesAt(s, events, n);
      CopyStands(s, init, i);
    }
  }
}
