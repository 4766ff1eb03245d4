/** The three-way merge of configurations: what a process last knew, what it now
    wants, and what is on disk. */
module ConfigMerge {
  import opened Common

  datatype ServerProfile = ServerProfile(
    id: string,
    credentialId: Option<string>,
    name: string,
    baseUrl: string,
    deviceName: string,
    deviceId: Option<string>,
    userId: Option<string>,
    userName: Option<string>)

  datatype StoredSigningKey = StoredSigningKey(keyId: string, privateKey: string)

  datatype Config = Config(
    servers: seq<ServerProfile>,
    selected: Option<string>,
    sound: string,
    tokens: map<string, string>,
    signingKeys: map<string, StoredSigningKey>)

  const DEFAULT_CONFIG := Config([], None, "default", map[], map[])

  // ----- Maps -----

  function Lookup<T>(m: map<string, T>, key: string): Option<T> {
    if key in m then Some(m[key]) else None
  }

  /** A key the process edited takes the process's value; any other keeps the disk's. */
  function MergedAt<T(==)>(base: map<string, T>, ours: map<string, T>, disk: map<string, T>, key: string): Option<T> {
    if Lookup(ours, key) != Lookup(base, key) then Lookup(ours, key) else Lookup(disk, key)
  }

  function MergedMap<T(==)>(base: map<string, T>, ours: map<string, T>, disk: map<string, T>): (m: map<string, T>)
    ensures forall key :: Lookup(m, key) == MergedAt(base, ours, disk, key)
  {
    map key | key in ours.Keys + disk.Keys && MergedAt(base, ours, disk, key).Some? ::
      MergedAt(base, ours, disk, key).value
  }

  lemma SameLookup<T>(a: map<string, T>, b: map<string, T>)
    requires forall key :: Lookup(a, key) == Lookup(b, key)
    ensures a == b
  {
    forall key ensures key in a <==> key in b { assert Lookup(a, key) == Lookup(b, key); }
    forall key | key in a ensures a[key] == b[key] { assert Lookup(a, key) == Lookup(b, key); }
  }

  /** `m` is `disk` without the keys in `gone`. */
  ghost predicate Without<T(!new)>(disk: map<string, T>, gone: set<string>, m: map<string, T>) {
    forall key :: Lookup(m, key) == if key in gone then None else Lookup(disk, key)
  }

  /** `m` is `disk` overridden, under the keys in `done`, by what `ours` changed. */
  ghost predicate Overridden<T(!new)>(base: map<string, T>, ours: map<string, T>, disk: map<string, T>,
                                      done: set<string>,
                                      m: map<string, T>)
  {
    forall key ::
      Lookup(m, key)
      == if key in done && key in ours && Lookup(base, key) != Some(ours[key]) then Some(ours[key])
        else Lookup(disk, key)
  }

  /** The first loop of `merge_map`: keys of `base` that `ours` no longer has. */
  method RemoveGone<T(!new)>(base: map<string, T>, ours: map<string, T>, disk: map<string, T>)
    returns (m: map<string, T>)
    ensures Without(disk, base.Keys - ours.Keys, m)
  {
    m := disk;
    var todo := base.Keys - ours.Keys;
    ghost var gone, done := todo, {};
    while todo != {}
      invariant gone == done + todo
      invariant Without(disk, done, m)
      decreases todo
    {
      var key :| key in todo;
      m := m - {key};
      todo, done := todo - {key}, done + {key};
    }
  }

  /** The second loop of `merge_map`: entries of `ours` that differ from `base`. */
  method InsertChanged<T(==, !new)>(base: map<string, T>, ours: map<string, T>, disk: map<string, T>)
    returns (m: map<string, T>)
    ensures Overridden(base, ours, disk, ours.Keys, m)
  {
    m := disk;
    var todo := ours.Keys;
    ghost var done := {};
    while todo != {}
      invariant ours.Keys == done + todo
      invariant Overridden(base, ours, disk, done, m)
      decreases todo
    {
      var key :| key in todo;
      if Lookup(base, key) != Some(ours[key]) { m := m[key := ours[key]]; }
      todo, done := todo - {key}, done + {key};
    }
  }

  /** `merge_map`. */
  method MergeMap<T(==, !new)>(base: map<string, T>, ours: map<string, T>, disk: map<string, T>)
    returns (m: map<string, T>)
    ensures m == MergedMap(base, ours, disk)
  {
    var kept := RemoveGone(base, ours, disk);
    m := InsertChanged(base, ours, kept);
    forall key ensures Lookup(m, key) == Lookup(MergedMap(base, ours, disk), key) {
      assert Lookup(MergedMap(base, ours, disk), key) == MergedAt(base, ours, disk, key);
      assert Lookup(kept, key) == if key in base.Keys - ours.Keys then None else Lookup(disk, key);
    }
    SameLookup(m, MergedMap(base, ours, disk));
  }

  // ----- The server list -----

  function Find(ss: seq<ServerProfile>, id: string): Option<ServerProfile> {
    if ss == [] then None else if ss[0].id == id then Some(ss[0]) else Find(ss[1..], id)
  }

  function Retain(ss: seq<ServerProfile>, id: string): seq<ServerProfile> {
    if ss == [] then [] else if ss[0].id == id then Retain(ss[1..], id) else [ss[0]] + Retain(ss[1..], id)
  }

  /** The entries of one id, in order. */
  function Entries(ss: seq<ServerProfile>, id: string): seq<ServerProfile> {
    if ss == [] then [] else if ss[0].id == id then [ss[0]] + Entries(ss[1..], id) else Entries(ss[1..], id)
  }

  ghost predicate UniqueIds(ss: seq<ServerProfile>) {
    forall id :: |Entries(ss, id)| <= 1
  }

  /** The first loop: entries of `base` that `ours` no longer has leave the disk's list. */
  function DropGone(base: seq<ServerProfile>, ours: seq<ServerProfile>, disk: seq<ServerProfile>): seq<ServerProfile> {
    if base == [] then disk
    else
      var last := base[|base| - 1];
      var rest := DropGone(base[..|base| - 1], ours, disk);
      if Find(ours, last.id).None? then Retain(rest, last.id) else rest
  }

  /** The second loop: entries of `ours` that are not `base`'s first entry of
      their id replace the disk's. */
  function PushChanged(base: seq<ServerProfile>, ours: seq<ServerProfile>,
                       disk: seq<ServerProfile>): seq<ServerProfile> {
    if ours == [] then disk
    else
      var last := ours[|ours| - 1];
      var rest := PushChanged(base, ours[..|ours| - 1], disk);
      if Find(base, last.id) == Some(last) then rest else Retain(rest, last.id) + [last]
  }

  function MergedServers(base: seq<ServerProfile>, ours: seq<ServerProfile>,
                         disk: seq<ServerProfile>): seq<ServerProfile> {
    PushChanged(base, ours, DropGone(base, ours, disk))
  }

  /** The last entry of an id in `ours` that is not `base`'s first of that id. */
  function LastChanged(base: seq<ServerProfile>, ours: seq<ServerProfile>, id: string): Option<ServerProfile> {
    if ours == [] then None
    else
      var last := ours[|ours| - 1];
      if last.id == id && Find(base, id) != Some(last) then Some(last)
      else LastChanged(base, ours[..|ours| - 1], id)
  }

  method MergeServers(base: seq<ServerProfile>, ours: seq<ServerProfile>, disk: seq<ServerProfile>)
    returns (merged: seq<ServerProfile>)
    ensures merged == MergedServers(base, ours, disk)
  {
    merged := disk;
    for i := 0 to |base|
      invariant merged == DropGone(base[..i], ours, disk)
    {
      assert base[..i + 1][..i] == base[..i];
      if Find(ours, base[i].id).None? { merged := Retain(merged, base[i].id); }
    }
    assert base[..|base|] == base;
    ghost var kept := merged;
    for i := 0 to |ours|
      invariant merged == PushChanged(base, ours[..i], kept)
    {
      assert ours[..i + 1][..i] == ours[..i];
      if Find(base, ours[i].id) != Some(ours[i]) { merged := Retain(merged, ours[i].id) + [ours[i]]; }
    }
    assert ours[..|ours|] == ours;
  }

  lemma {:induction false} RetainEntries(ss: seq<ServerProfile>, gone: string, id: string)
    ensures Entries(Retain(ss, gone), id) == if id == gone then [] else Entries(ss, id)
  {
    if ss != [] {
      RetainEntries(ss[1..], gone, id);
      assert ([ss[0]] + Retain(ss[1..], gone))[1..] == Retain(ss[1..], gone);
    }
  }

  lemma {:induction false} EntriesAppend(ss: seq<ServerProfile>, ts: seq<ServerProfile>, id: string)
    ensures Entries(ss + ts, id) == Entries(ss, id) + Entries(ts, id)
  {
    if ss == [] {
      assert ss + ts == ts;
    } else {
      assert (ss + ts)[1..] == ss[1..] + ts && (ss + ts)[0] == ss[0];
      EntriesAppend(ss[1..], ts, id);
    }
  }

  lemma {:induction false} FindFirstEntry(ss: seq<ServerProfile>, id: string)
    ensures Find(ss, id) == if Entries(ss, id) == [] then None else Some(Entries(ss, id)[0])
  {
    if ss != [] {
      FindFirstEntry(ss[1..], id);
    }
  }

  lemma {:induction false} FindLast(ss: seq<ServerProfile>, id: string)
    requires ss != []
    ensures Find(ss, id) == if Find(ss[..|ss| - 1], id).Some? then Find(ss[..|ss| - 1], id)
                            else if ss[|ss| - 1].id == id then Some(ss[|ss| - 1]) else None
  {
    if |ss| > 1 {
      assert ss[1..][..|ss| - 2] == ss[..|ss| - 1][1..];
      FindLast(ss[1..], id);
    }
  }

  lemma {:induction false} DropGoneEntries(base: seq<ServerProfile>, ours: seq<ServerProfile>,
                                           disk: seq<ServerProfile>, id: string)
    ensures Entries(DropGone(base, ours, disk), id)
            == if Find(base, id).Some? && Find(ours, id).None? then [] else Entries(disk, id)
  {
    if base != [] {
      var last := base[|base| - 1];
      DropGoneEntries(base[..|base| - 1], ours, disk, id);
      FindLast(base, id);
      RetainEntries(DropGone(base[..|base| - 1], ours, disk), last.id, id);
    }
  }

  lemma {:induction false} PushChangedEntries(base: seq<ServerProfile>, ours: seq<ServerProfile>,
                                              disk: seq<ServerProfile>, id: string)
    ensures Entries(PushChanged(base, ours, disk), id)
            == if LastChanged(base, ours, id).Some? then [LastChanged(base, ours, id).value] else Entries(disk, id)
  {
    if ours != [] {
      var last := ours[|ours| - 1];
      var rest := PushChanged(base, ours[..|ours| - 1], disk);
      PushChangedEntries(base, ours[..|ours| - 1], disk, id);
      RetainEntries(rest, last.id, id);
      EntriesAppend(Retain(rest, last.id), [last], id);
    }
  }

  /** What the two loops do to the entries of one id, for any three lists. */
  lemma MergedEntries(base: seq<ServerProfile>, ours: seq<ServerProfile>, disk: seq<ServerProfile>, id: string)
    ensures Entries(MergedServers(base, ours, disk), id) ==
            if Find(base, id).Some? && Find(ours, id).None? then []
            else if LastChanged(base, ours, id).Some? then [LastChanged(base, ours, id).value]
            else Entries(disk, id)
  {
    DropGoneEntries(base, ours, disk, id);
    PushChangedEntries(base, ours, DropGone(base, ours, disk), id);
    ChangedIsOurs(base, ours, id);
  }

  lemma {:induction false} ChangedIsOurs(base: seq<ServerProfile>, ours: seq<ServerProfile>, id: string)
    ensures LastChanged(base, ours, id).Some? ==>
              LastChanged(base, ours, id).value in Entries(ours, id) && Find(ours, id).Some?
              && Find(base, id) != LastChanged(base, ours, id)
    ensures LastChanged(base, ours, id).None? ==> Find(ours, id).None? || Find(ours, id) == Find(base, id)
  {
    if ours != [] {
      var init := ours[..|ours| - 1];
      assert ours == init + [ours[|ours| - 1]];
      EntriesAppend(init, [ours[|ours| - 1]], id);
      FindLast(ours, id);
      ChangedIsOurs(base, init, id);
    }
  }

  /** All entries of the id are one and the same, as when there is at most one. */
  ghost predicate Uniform(ss: seq<ServerProfile>, id: string) {
    forall e, f :: e in Entries(ss, id) && f in Entries(ss, id) ==> e == f
  }

  ghost predicate UniformIds(ss: seq<ServerProfile>) {
    forall id :: Uniform(ss, id)
  }

  lemma UniqueIsUniform(ss: seq<ServerProfile>)
    requires UniqueIds(ss)
    ensures UniformIds(ss)
  {
    forall id ensures Uniform(ss, id) {
      assert |Entries(ss, id)| <= 1;
    }
  }

  /** A merge never introduces a second entry for an id, so a list read back from a
      file with unique ids follows the rule below. */
  lemma MergeKeepsUnique(base: seq<ServerProfile>, ours: seq<ServerProfile>, disk: seq<ServerProfile>)
    requires UniqueIds(disk)
    ensures UniqueIds(MergedServers(base, ours, disk)) && UniformIds(MergedServers(base, ours, disk))
  {
    forall id ensures |Entries(MergedServers(base, ours, disk), id)| <= 1 {
      MergedEntries(base, ours, disk, id);
    }
    UniqueIsUniform(MergedServers(base, ours, disk));
  }

  /** The pointwise rule for servers: an edited id takes the process's entry, any
      other keeps the disk's. */
  ghost predicate FollowsRule(base: seq<ServerProfile>, ours: seq<ServerProfile>, disk: seq<ServerProfile>,
                              id: string) {
    Find(MergedServers(base, ours, disk), id)
    == if Find(ours, id) != Find(base, id) then Find(ours, id) else Find(disk, id)
  }

  lemma MergedServer(base: seq<ServerProfile>, ours: seq<ServerProfile>, disk: seq<ServerProfile>, id: string)
    requires Uniform(ours, id)
    ensures FollowsRule(base, ours, disk, id)
  {
    MergedEntries(base, ours, disk, id);
    ChangedIsOurs(base, ours, id);
    FindFirstEntry(MergedServers(base, ours, disk), id);
    FindFirstEntry(ours, id);
    FindFirstEntry(disk, id);
    assert Entries(ours, id) != [] ==> Entries(ours, id)[0] in Entries(ours, id);
  }

  /** A file that holds two entries of one id breaks the rule: a save that edits
      nothing turns the server that lookups see from the first into the second. */
  lemma UneditedSaveSwaps(a: ServerProfile, b: ServerProfile)
    requires a.id == b.id && a != b
    ensures Find([a, b], a.id) == Some(a)
    ensures Find(MergedServers([a, b], [a, b], [a, b]), a.id) == Some(b)
  {
    var both := [a, b];
    assert both[..1] == [a] && [a][..0] == [];
    assert LastChanged(both, both, a.id) == Some(b);
    MergedEntries(both, both, both, a.id);
    FindFirstEntry(MergedServers(both, both, both), a.id);
  }

  /** Where the entries differ, a save over the same list as its base breaks it. */
  lemma {:induction false} LastDiffering(base: seq<ServerProfile>, ours: seq<ServerProfile>, id: string,
                                         e: ServerProfile)
    requires e in Entries(ours, id) && Find(base, id) != Some(e)
    ensures LastChanged(base, ours, id).Some?
  {
    var init := ours[..|ours| - 1];
    var last := ours[|ours| - 1];
    assert ours == init + [last];
    EntriesAppend(init, [last], id);
    if last.id != id || Find(base, id) == Some(last) {
      assert e in Entries(init, id);
      LastDiffering(base, init, id, e);
    }
  }

  lemma {:induction false} EntriesHaveId(ss: seq<ServerProfile>, id: string)
    ensures forall e :: e in Entries(ss, id) <==> e in ss && e.id == id
  {
    if ss != [] {
      EntriesHaveId(ss[1..], id);
      assert ss == [ss[0]] + ss[1..];
    }
  }

  /** The rule holds for an id, whatever the base and the disk, exactly if the saved
      list has no two different entries of it. */
  lemma RuleIffUniform(ours: seq<ServerProfile>, id: string)
    ensures (forall base, disk :: FollowsRule(base, ours, disk, id)) <==> Uniform(ours, id)
  {
    if Uniform(ours, id) {
      forall base, disk ensures FollowsRule(base, ours, disk, id) {
        MergedServer(base, ours, disk, id);
      }
    } else {
      SwapsItself(ours, id);
      assert !FollowsRule(ours, ours, ours, id);
    }
  }

  lemma SwapsItself(ours: seq<ServerProfile>, id: string)
    requires !Uniform(ours, id)
    ensures !FollowsRule(ours, ours, ours, id)
  {
    var e, f :| e in Entries(ours, id) && f in Entries(ours, id) && e != f;
    FindFirstEntry(ours, id);
    LastDiffering(ours, ours, id, if Find(ours, id) == Some(e) then f else e);
    MergedEntries(ours, ours, ours, id);
    ChangedIsOurs(ours, ours, id);
    FindFirstEntry(MergedServers(ours, ours, ours), id);
  }

  // ----- The order of the list -----

  /** The entries whose ids are not in `dropped`, in order. */
  function Keep(ss: seq<ServerProfile>, dropped: set<string>): seq<ServerProfile> {
    if ss == [] then []
    else (if ss[0].id in dropped then [] else [ss[0]]) + Keep(ss[1..], dropped)
  }

  /** The ids that left the process's list, and those whose entry it changed or added. */
  ghost function GoneIds(base: seq<ServerProfile>, ours: seq<ServerProfile>): set<string> {
    set x | x in base && Find(ours, x.id).None? :: x.id
  }

  ghost function ChangedIds(base: seq<ServerProfile>, ours: seq<ServerProfile>): set<string> {
    set x | x in ours && Find(base, x.id) != Some(x) :: x.id
  }

  lemma {:induction false} KeepAppend(a: seq<ServerProfile>, b: seq<ServerProfile>, dropped: set<string>)
    ensures Keep(a + b, dropped) == Keep(a, dropped) + Keep(b, dropped)
  {
    if a == [] {
      assert a + b == b;
    } else {
      assert (a + b)[1..] == a[1..] + b && (a + b)[0] == a[0];
      KeepAppend(a[1..], b, dropped);
    }
  }

  lemma {:induction false} RetainKeeps(ss: seq<ServerProfile>, dropped: set<string>, id: string)
    ensures Retain(Keep(ss, dropped), id) == Keep(ss, dropped + {id})
  {
    if ss != [] {
      var rest := Keep(ss[1..], dropped);
      RetainKeeps(ss[1..], dropped, id);
      assert ([ss[0]] + rest)[1..] == rest;
      assert [] + rest == rest && [] + Keep(ss[1..], dropped + {id}) == Keep(ss[1..], dropped + {id});
    }
  }

  lemma {:induction false} RetainAppend(a: seq<ServerProfile>, b: seq<ServerProfile>, id: string)
    ensures Retain(a + b, id) == Retain(a, id) + Retain(b, id)
  {
    if a == [] {
      assert a + b == b;
    } else {
      assert (a + b)[1..] == a[1..] + b && (a + b)[0] == a[0];
      RetainAppend(a[1..], b, id);
    }
  }

  lemma {:induction false} KeepAll(ss: seq<ServerProfile>)
    ensures Keep(ss, {}) == ss
  {
    if ss != [] { KeepAll(ss[1..]); }
  }

  lemma {:induction false} DropKeeps(base: seq<ServerProfile>, ours: seq<ServerProfile>, disk: seq<ServerProfile>)
    ensures DropGone(base, ours, disk) == Keep(disk, GoneIds(base, ours))
  {
    if base == [] {
      assert GoneIds([], ours) == {};
      KeepAll(disk);
    } else {
      var init, last := base[..|base| - 1], base[|base| - 1];
      assert base == init + [last];
      DropKeeps(init, ours, disk);
      assert GoneIds(base, ours) == GoneIds(init, ours) + if Find(ours, last.id).None? then {last.id} else {};
      assert GoneIds(init, ours) + {} == GoneIds(init, ours);
      RetainKeeps(disk, GoneIds(init, ours), last.id);
    }
  }

  lemma {:induction false} PushSplits(base: seq<ServerProfile>, ours: seq<ServerProfile>, disk: seq<ServerProfile>,
                                      gone: set<string>)
    ensures PushChanged(base, ours, Keep(disk, gone))
            == Keep(disk, gone + ChangedIds(base, ours)) + PushChanged(base, ours, [])
  {
    if ours == [] {
      assert ChangedIds(base, []) == {} && gone + {} == gone;
      assert Keep(disk, gone) + [] == Keep(disk, gone);
    } else {
      var init, last := ours[..|ours| - 1], ours[|ours| - 1];
      assert ours == init + [last];
      PushSplits(base, init, disk, gone);
      var changed := ChangedIds(base, init);
      if Find(base, last.id) == Some(last) {
        assert ChangedIds(base, ours) == changed;
      } else {
        assert ChangedIds(base, ours) == changed + {last.id};
        RetainAppend(Keep(disk, gone + changed), PushChanged(base, init, []), last.id);
        RetainKeeps(disk, gone + changed, last.id);
        assert gone + changed + {last.id} == gone + (changed + {last.id});
      }
    }
  }

  /** The unchanged entries of the process's list. */
  ghost function UnchangedIds(base: seq<ServerProfile>, ours: seq<ServerProfile>): set<string> {
    set x | x in ours && Find(base, x.id) == Some(x) :: x.id
  }

  ghost predicate DistinctServers(ss: seq<ServerProfile>) {
    forall i, j :: 0 <= i < j < |ss| ==> ss[i].id != ss[j].id
  }

  lemma {:induction false} KeepMembers(ss: seq<ServerProfile>, dropped: set<string>)
    ensures forall x :: x in Keep(ss, dropped) <==> x in ss && x.id !in dropped
  {
    if ss != [] {
      KeepMembers(ss[1..], dropped);
      assert ss == [ss[0]] + ss[1..];
    }
  }

  lemma {:induction false} RetainOthers(ss: seq<ServerProfile>, id: string)
    requires forall x :: x in ss ==> x.id != id
    ensures Retain(ss, id) == ss
  {
    if ss != [] {
      assert ss == [ss[0]] + ss[1..];
      RetainOthers(ss[1..], id);
    }
  }

  lemma {:induction false} KeepSame(ss: seq<ServerProfile>, a: set<string>, b: set<string>)
    requires forall x :: x in ss ==> (x.id in a <==> x.id in b)
    ensures Keep(ss, a) == Keep(ss, b)
  {
    if ss != [] {
      assert ss == [ss[0]] + ss[1..];
      KeepSame(ss[1..], a, b);
    }
  }

  lemma {:induction false} PushedInOrder(base: seq<ServerProfile>, ours: seq<ServerProfile>)
    requires DistinctServers(ours)
    ensures PushChanged(base, ours, []) == Keep(ours, UnchangedIds(base, ours))
  {
    if ours != [] {
      var init, last := ours[..|ours| - 1], ours[|ours| - 1];
      assert ours == init + [last];
      PushedInOrder(base, init);
      var (same, all) := (UnchangedIds(base, init), UnchangedIds(base, ours));
      assert forall x :: x in init ==> x.id != last.id;
      KeepMembers(init, same);
      RetainOthers(Keep(init, same), last.id);
      KeepSame(init, same, all);
      KeepAppend(init, [last], all);
      assert [last][1..] == [] && Keep([last], all) == if last.id in all then [] else [last];
      assert Keep(init, all) + [] == Keep(init, all);
    }
  }

  /** The order of a merged list: what the process neither dropped nor changed, as it
      stands on disk, and then what it changed or added, as it stands with the process. */
  lemma MergedOrder(base: seq<ServerProfile>, ours: seq<ServerProfile>, disk: seq<ServerProfile>)
    requires DistinctServers(ours)
    ensures MergedServers(base, ours, disk)
            == Keep(disk, GoneIds(base, ours) + ChangedIds(base, ours)) + Keep(ours, UnchangedIds(base, ours))
  {
    DropKeeps(base, ours, disk);
    PushSplits(base, ours, disk, GoneIds(base, ours));
    PushedInOrder(base, ours);
  }

  // ----- Whole configurations -----

  function Merge(base: Config, ours: Config, disk: Config): Config {
    Config(
      MergedServers(base.servers, ours.servers, disk.servers),
      if ours.selected != base.selected then ours.selected else disk.selected,
      if ours.sound != base.sound then ours.sound else disk.sound,
      MergedMap(base.tokens, ours.tokens, disk.tokens),
      MergedMap(base.signingKeys, ours.signingKeys, disk.signingKeys))
  }

  /** `merge_config`, editing the configuration read from disk in place. */
  method MergeConfig(base: Config, ours: Config, disk: Config) returns (merged: Config)
    ensures merged == Merge(base, ours, disk)
  {
    merged := disk;
    var servers := MergeServers(base.servers, ours.servers, merged.servers);
    merged := merged.(servers := servers);
    if ours.selected != base.selected { merged := merged.(selected := ours.selected); }
    if ours.sound != base.sound { merged := merged.(sound := ours.sound); }
    var tokens := MergeMap(base.tokens, ours.tokens, merged.tokens);
    merged := merged.(tokens := tokens);
    var signingKeys := MergeMap(base.signingKeys, ours.signingKeys, merged.signingKeys);
    merged := merged.(signingKeys := signingKeys);
  }

  /** Everything a configuration holds, key by key. */
  datatype Key = ServerKey(id: string) | TokenKey(id: string) | SigningKey(id: string) | SelectionKey | SoundKey

  datatype Held =
    | HeldServer(server: Option<ServerProfile>)
    | HeldText(text: Option<string>)
    | HeldKey(key: Option<StoredSigningKey>)

  function Get(c: Config, key: Key): Held {
    match key
    case ServerKey(id) => HeldServer(Find(c.servers, id))
    case TokenKey(id) => HeldText(Lookup(c.tokens, id))
    case SigningKey(id) => HeldKey(Lookup(c.signingKeys, id))
    case SelectionKey => HeldText(c.selected)
    case SoundKey => HeldText(Some(c.sound))
  }

  /** The pointwise rule for every key. */
  lemma MergePointwise(base: Config, ours: Config, disk: Config, key: Key)
    requires UniformIds(ours.servers)
    ensures Get(Merge(base, ours, disk), key)
            == if Get(ours, key) != Get(base, key) then Get(ours, key) else Get(disk, key)
  {
    if key.ServerKey? {
      assert Uniform(ours.servers, key.id);
      MergedServer(base.servers, ours.servers, disk.servers, key.id);
    } else if key.TokenKey? {
      assert Lookup(Merge(base, ours, disk).tokens, key.id) == MergedAt(base.tokens, ours.tokens, disk.tokens, key.id);
    } else if key.SigningKey? {
      assert Lookup(Merge(base, ours, disk).signingKeys, key.id)
          == MergedAt(base.signingKeys, ours.signingKeys, disk.signingKeys, key.id);
    }
  }

  /** Two configurations that hold the same under every key. */
  ghost predicate Alike(a: Config, b: Config) {
    forall key :: Get(a, key) == Get(b, key)
  }

  /** Both processes edited the key, to different values. */
  ghost predicate Conflict(base1: Config, ours1: Config, base2: Config, ours2: Config, key: Key) {
    Get(ours1, key) != Get(base1, key) && Get(ours2, key) != Get(base2, key) && Get(ours1, key) != Get(ours2, key)
  }

  /** Two saves commute, up to the order of the server list, exactly if no key was
      edited by both to different values. */
  lemma SavesCommuteIff(base1: Config, ours1: Config, base2: Config, ours2: Config, disk: Config)
    requires UniformIds(ours1.servers) && UniformIds(ours2.servers)
    ensures Alike(Merge(base2, ours2, Merge(base1, ours1, disk)), Merge(base1, ours1, Merge(base2, ours2, disk)))
            <==> forall key :: !Conflict(base1, ours1, base2, ours2, key)
  {
    var (first, second) := (Merge(base1, ours1, disk), Merge(base2, ours2, disk));
    var (a, b) := (Merge(base2, ours2, first), Merge(base1, ours1, second));
    forall key ensures Get(a, key) == Get(b, key) <==> !Conflict(base1, ours1, base2, ours2, key) {
      MergePointwise(base1, ours1, disk, key);
      MergePointwise(base2, ours2, disk, key);
      MergePointwise(base2, ours2, first, key);
      MergePointwise(base1, ours1, second, key);
    }
  }
}
