/** Moving inputs from the legacy settings directory to the inputs directory, all or nothing. */
module Migration {
  import opened Wrappers
  import opened Collections
  import opened Transactions

  const INPUTS: seq<string> := [
    "access_log_suppress.conf", "allowed_ips.txt", "domains.conf", "free_subdomains.txt",
    "security_trap_allow.conf", "servers.conf", "subdomains.conf", "subfolders.conf",
    "nginx.toml", "sites.toml"
  ]

  ghost predicate Distinct(names: seq<string>) {
    forall i, j | 0 <= i < j < |names| :: names[i] != names[j]
  }

  /** A `.conf` input stays where it was as well: the running nginx includes it from there. */
  predicate StaysInPlace(name: string) {
    |name| >= 5 && name[|name| - 5..] == ".conf"
  }

  /** The file of that name in a directory. */
  function In(dir: Path, name: string): Path {
    dir + [name]
  }

  predicate IsInput(path: Path, dir: Path, names: seq<string>) {
    |path| == |dir| + 1 && path[..|dir|] == dir && path[|dir|] in names
  }

  /** What a path holds once the inputs have been moved. */
  function Migrated(files: Files, legacy: Path, inputs: Path, names: seq<string>, p: Path): Option<string> {
    if IsInput(p, inputs, names) && In(legacy, p[|inputs|]) in files then
      Some(files[In(legacy, p[|inputs|])])
    else if IsInput(p, legacy, names) && !StaysInPlace(p[|legacy|]) then
      None
    else
      At(files, p)
  }

  /** No input exists in both directories with different text. */
  ghost predicate NoConflict(files: Files, legacy: Path, inputs: Path, names: seq<string>) {
    forall name | name in names && In(legacy, name) in files && In(inputs, name) in files ::
      files[In(inputs, name)] == files[In(legacy, name)]
  }

  function Found(files: Files, legacy: Path, names: seq<string>): nat {
    if names == [] then 0 else
      Found(files, legacy, names[..|names| - 1]) + if In(legacy, names[|names| - 1]) in files then 1 else 0
  }

  /** Moving loses no text and overwrites none: the text of every input found in either
      directory is in the inputs directory afterwards, and every other file is as it was. */
  lemma MigrationLosesNothing(before: Files, after: Files, legacy: Path, inputs: Path, names: seq<string>)
    requires legacy != inputs && NoConflict(before, legacy, inputs, names)
    requires forall p :: At(after, p) == Migrated(before, legacy, inputs, names, p)
    ensures forall name | name in names && In(legacy, name) in before ::
              At(after, In(inputs, name)) == At(before, In(legacy, name))
    ensures forall name | name in names && In(inputs, name) in before ::
              At(after, In(inputs, name)) == At(before, In(inputs, name))
    ensures forall p | !IsInput(p, legacy, names) && !IsInput(p, inputs, names) :: At(after, p) == At(before, p)
    ensures forall name | name in names && StaysInPlace(name) ::
              At(after, In(legacy, name)) == At(before, In(legacy, name))
  {
    forall name | name in names
      ensures IsInput(In(inputs, name), inputs, names) && In(inputs, name)[|inputs|] == name
      ensures !IsInput(In(inputs, name), legacy, names) && !IsInput(In(legacy, name), inputs, names)
      ensures IsInput(In(legacy, name), legacy, names) && In(legacy, name)[|legacy|] == name
    {
      DirectoriesApart(legacy, inputs, name);
    }
  }

  lemma DirectoriesApart(legacy: Path, inputs: Path, name: string)
    requires legacy != inputs
    ensures In(legacy, name)[..|legacy|] == legacy && In(inputs, name)[..|inputs|] == inputs
    ensures forall names :: !IsInput(In(inputs, name), legacy, names) && !IsInput(In(legacy, name), inputs, names)
  {
  }

  /** Moving again moves nothing. */
  lemma MigrationIsIdempotent(before: Files, after: Files, legacy: Path, inputs: Path, names: seq<string>)
    requires legacy != inputs
    requires forall p :: At(after, p) == Migrated(before, legacy, inputs, names, p)
    ensures forall p :: Migrated(after, legacy, inputs, names, p) == At(after, p)
  {
    forall p ensures Migrated(after, legacy, inputs, names, p) == At(after, p) {
      if IsInput(p, inputs, names) {
        var name := p[|inputs|];
        assert p == In(inputs, name);
        DirectoriesApart(legacy, inputs, name);
        assert At(after, In(legacy, name)) == Migrated(before, legacy, inputs, names, In(legacy, name));
      } else {
        assert At(after, p) == Migrated(before, legacy, inputs, names, p);
      }
    }
  }

  /** Collect what is to be written and removed, without changing anything. */
  method Collect(disk: Disk, legacy: Path, inputs: Path, names: seq<string>)
    returns (result: Result<(Files, seq<Path>), ()>)
    requires Distinct(names) && names != []
    ensures result.Success? ==>
      var (files, removals) := result.value;
      && legacy != inputs && NoConflict(disk.files, legacy, inputs, names)
      && Collected(disk.files, files, removals, legacy, inputs, names)
      && |files| == Found(disk.files, legacy, names)
  {
    hide Collected, NoConflict, Found, IsInput, StaysInPlace;
    NothingCollected(disk.files, legacy, inputs);
    var files: Files := map[];
    var removals: seq<Path> := [];
    var i := 0;
    while i < |names|
      invariant 0 <= i <= |names|
      invariant i > 0 ==> legacy != inputs
      invariant Collected(disk.files, files, removals, legacy, inputs, names[..i])
      invariant |files| == Found(disk.files, legacy, names[..i])
      invariant NoConflict(disk.files, legacy, inputs, names[..i])
    {
      var name := names[i];
      var source, target := In(legacy, name), In(inputs, name);
      if source == target {
        return Failure(());
      }
      assert legacy != inputs;
      var content := disk.Read(source);
      if content.Failure? {
        return Failure(());
      }
      assert names[..i + 1] == names[..i] + [name];
      ghost var files0, removals0 := files, removals;
      if content.value.Some? {
        var existing := disk.Read(target);
        if existing.Failure? || (existing.value.Some? && existing.value.value != content.value.value) {
          return Failure(());
        }
        NotYetCollected(disk.files, files, removals, legacy, inputs, names[..i], name);
        files := files[target := content.value.value];
        if !StaysInPlace(name) {
          removals := removals + [source];
        }
      }
      OneMoreFound(disk.files, legacy, inputs, names[..i], name);
      OneMoreCollected(disk.files, files0, removals0, legacy, inputs, names[..i], name, files, removals);
      i := i + 1;
    }
    assert names[..i] == names;
    return Success((files, removals));
  }

  ghost predicate Collected(disk: Files, files: Files, removals: seq<Path>, legacy: Path, inputs: Path,
                            names: seq<string>) {
    && (forall p :: p in files <==> IsInput(p, inputs, names) && In(legacy, p[|inputs|]) in disk)
    && (forall p | p in files :: IsInput(p, inputs, names) && In(legacy, p[|inputs|]) in disk
           && files[p] == disk[In(legacy, p[|inputs|])])
    && (forall p :: p in removals <==> IsInput(p, legacy, names) && p in disk && !StaysInPlace(p[|legacy|]))
  }

  lemma OneMoreCollected(disk: Files, files: Files, removals: seq<Path>, legacy: Path, inputs: Path,
                         names: seq<string>, name: string, files': Files, removals': seq<Path>)
    requires legacy != inputs && Collected(disk, files, removals, legacy, inputs, names)
    requires files' == if In(legacy, name) in disk then files[In(inputs, name) := disk[In(legacy, name)]] else files
    requires removals' == removals + if In(legacy, name) in disk && !StaysInPlace(name) then [In(legacy, name)] else []
    ensures Collected(disk, files', removals', legacy, inputs, names + [name])
  {
    forall p, dir: Path
      ensures IsInput(p, dir, names + [name]) <==> IsInput(p, dir, names) || p == In(dir, name)
    {
      if |p| == |dir| + 1 && p[..|dir|] == dir && p[|dir|] == name {
        assert p == In(dir, name);
      }
    }
  }

  lemma NothingCollected(disk: Files, legacy: Path, inputs: Path)
    ensures Collected(disk, map[], [], legacy, inputs, []) && NoConflict(disk, legacy, inputs, [])
    ensures Found(disk, legacy, []) == 0
  {
  }

  lemma NotYetCollected(disk: Files, files: Files, removals: seq<Path>, legacy: Path, inputs: Path,
                        names: seq<string>, name: string)
    requires Collected(disk, files, removals, legacy, inputs, names) && name !in names
    ensures In(inputs, name) !in files
  {
  }

  lemma OneMoreFound(disk: Files, legacy: Path, inputs: Path, names: seq<string>, name: string)
    ensures Found(disk, legacy, names + [name])
         == Found(disk, legacy, names) + if In(legacy, name) in disk then 1 else 0
    ensures NoConflict(disk, legacy, inputs, names + [name]) <==>
      && NoConflict(disk, legacy, inputs, names)
      && (In(legacy, name) in disk && In(inputs, name) in disk ==> disk[In(inputs, name)] == disk[In(legacy, name)])
  {
    assert (names + [name])[..|names|] == names;
  }

  /** What was collected, once applied, is the migration; nothing written is also removed. */
  lemma CollectedApplied(disk: Files, files: Files, removals: seq<Path>, legacy: Path, inputs: Path,
                         names: seq<string>)
    requires legacy != inputs && Collected(disk, files, removals, legacy, inputs, names)
    ensures forall p :: Applied(disk, files, removals, p) == Migrated(disk, legacy, inputs, names, p)
    ensures forall p | p in files :: p !in removals
  {
  }

  /** The whole migration.  `valid` is the check of the global settings and of every site in the
      new place; unless it passes, everything is put back. */
  method Migrate(disk: Disk, root: Path, inputs: Path, names: seq<string>,
                 accepts: string -> bool, valid: Files -> bool)
    returns (moved: Option<nat>, ghost restored: bool)
    requires Distinct(names) && names != []
    modifies disk
    ensures moved.Some? ==>
      var legacy := In(root, "settings");
      && legacy != inputs && NoConflict(old(disk.files), legacy, inputs, names)
      && (forall p :: At(disk.files, p) == Migrated(old(disk.files), legacy, inputs, names, p))
      && valid(disk.files) && moved.value == Found(old(disk.files), legacy, names)
    ensures moved.None? && restored ==> disk.files == old(disk.files)
    ensures forall p :: At(disk.files, p) in
              {old(At(disk.files, p)), Migrated(old(disk.files), In(root, "settings"), inputs, names, p)}
    // Where there is nothing left to move, nothing changes, whatever fails.
    ensures (forall p ::
               Migrated(old(disk.files), In(root, "settings"), inputs, names, p) == old(At(disk.files, p))) ==>
              disk.files == old(disk.files)
  {
    hide Guards, PartlyReverted, Between, Reverted, Migrated, NoConflict, Collected, Applied, Found;
    ghost var original := disk.files;
    var legacy := In(root, "settings");
    var collected := Collect(disk, legacy, inputs, names);
    if collected.Failure? {
      return None, true;
    }
    var (files, removals) := collected.value;
    CollectedApplied(original, files, removals, legacy, inputs, names);
    var applied;
    applied, restored := Apply(disk, files, removals, In(inputs, "nginx.toml"), accepts);
    if applied.Failure? {
      moved := None;
    } else {
      var transaction := applied.value;
      if valid(disk.files) {
        transaction.Commit();
        moved := Some(|files|);
      } else {
        moved := None;
      }
      ghost var attempted := disk.files;
      restored := transaction.Drop();
      if moved.None? {
        PartlyRevertedBetween(disk.files, attempted, transaction.previous, original, files, removals);
      }
    }
    BetweenIsApplied(disk.files, original, files, removals);
    if forall p :: Migrated(original, legacy, inputs, names, p) == At(original, p) {
      SameFiles(disk.files, original);
    }
  }

  lemma BetweenIsApplied(now: Files, was: Files, files: Files, removals: seq<Path>)
    requires Between(now, was, files, removals)
    requires forall p | p in files :: p !in removals
    ensures forall p :: At(now, p) == At(was, p) || At(now, p) == Applied(was, files, removals, p)
  {
  }

  /** The known inputs are different files. */
  lemma InputsAreDistinct()
    ensures Distinct(INPUTS)
  {
    var q := INPUTS;
    assert |q[0]| == 24 && |q[1]| == 15 && |q[2]| == 12 && |q[3]| == 19 && |q[4]| == 24;
    assert |q[5]| == 12 && |q[6]| == 15 && |q[7]| == 15 && |q[8]| == 10 && |q[9]| == 10;
    assert q[0][0] == 'a' && q[4][0] == 's' && q[2][0] == 'd' && q[5][0] == 's' && q[8][0] == 'n' && q[9][0] == 's';
    assert q[1][3] == 'o' && q[6][3] == 'd' && q[7][3] == 'f';
  }

  /** Of the known inputs those that nginx includes from the legacy directory stay there, and
      the other four do not. */
  lemma InputsThatStay()
    ensures
      && StaysInPlace("access_log_suppress.conf") && StaysInPlace("domains.conf")
      && StaysInPlace("security_trap_allow.conf") && StaysInPlace("servers.conf")
      && StaysInPlace("subdomains.conf") && StaysInPlace("subfolders.conf")
    ensures
      && !StaysInPlace("allowed_ips.txt") && !StaysInPlace("free_subdomains.txt")
      && !StaysInPlace("nginx.toml") && !StaysInPlace("sites.toml")
  {
    hide StaysInPlace;
    assert "access_log_suppress" + ".conf" == "access_log_suppress.conf";
    EndsInConf("access_log_suppress");
    assert "domains" + ".conf" == "domains.conf";
    EndsInConf("domains");
    assert "security_trap_allow" + ".conf" == "security_trap_allow.conf";
    EndsInConf("security_trap_allow");
    assert "servers" + ".conf" == "servers.conf";
    EndsInConf("servers");
    assert "subdomains" + ".conf" == "subdomains.conf";
    EndsInConf("subdomains");
    assert "subfolders" + ".conf" == "subfolders.conf";
    EndsInConf("subfolders");
    EndsOtherwise("allowed_ips.txt");
    EndsOtherwise("free_subdomains.txt");
    EndsOtherwise("nginx.toml");
    EndsOtherwise("sites.toml");
  }

  lemma EndsInConf(stem: string)
    ensures StaysInPlace(stem + ".conf")
  {
    assert (stem + ".conf")[|stem|..] == ".conf";
  }

  lemma EndsOtherwise(name: string)
    requires name != "" && name[|name| - 1] != 'f'
    ensures !StaysInPlace(name)
  {
  }

  /** After a migration a `.conf` input is in the legacy directory as it was; no other is there. */
  lemma LegacyAfterMigration(before: Files, after: Files, legacy: Path, inputs: Path, names: seq<string>, name: string)
    requires legacy != inputs && name in names
    requires forall p :: At(after, p) == Migrated(before, legacy, inputs, names, p)
    ensures At(after, In(legacy, name)) == if StaysInPlace(name) then At(before, In(legacy, name)) else None
  {
    DirectoriesApart(legacy, inputs, name);
    assert IsInput(In(legacy, name), legacy, names) && In(legacy, name)[|legacy|] == name;
  }

  /** The migration of the known inputs: every text found is in its new place and none was
      overwritten, and running it again would change nothing; or all is as before. */
  method MigrateInputs(disk: Disk, root: Path, inputs: Path, accepts: string -> bool, valid: Files -> bool)
    returns (moved: Option<nat>, ghost restored: bool)
    modifies disk
    ensures moved.Some? ==>
      var legacy := In(root, "settings");
      && (forall name | name in INPUTS && In(legacy, name) in old(disk.files) ::
            At(disk.files, In(inputs, name)) == old(At(disk.files, In(legacy, name))))
      && (forall name | name in INPUTS && In(inputs, name) in old(disk.files) ::
            At(disk.files, In(inputs, name)) == old(At(disk.files, In(inputs, name))))
      && (forall p | !IsInput(p, legacy, INPUTS) && !IsInput(p, inputs, INPUTS) ::
            At(disk.files, p) == old(At(disk.files, p)))
      && (forall name | name in INPUTS ::
            At(disk.files, In(legacy, name)) == if StaysInPlace(name) then old(At(disk.files, In(legacy, name)))
              else None)
      && (forall p :: Migrated(disk.files, legacy, inputs, INPUTS, p) == At(disk.files, p))
      && moved.value == Found(old(disk.files), legacy, INPUTS) && valid(disk.files)
    ensures moved.None? && restored ==> disk.files == old(disk.files)
  {
    hide Distinct, Migrated, NoConflict, Found, IsInput, StaysInPlace;
    InputsAreDistinct();
    moved, restored := Migrate(disk, root, inputs, INPUTS, accepts, valid);
    if moved.Some? {
      MigrationLosesNothing(old(disk.files), disk.files, In(root, "settings"), inputs, INPUTS);
      MigrationIsIdempotent(old(disk.files), disk.files, In(root, "settings"), inputs, INPUTS);
      forall name | name in INPUTS
        ensures At(disk.files, In(In(root, "settings"), name))
             == if StaysInPlace(name) then old(At(disk.files, In(In(root, "settings"), name))) else None
      {
        LegacyAfterMigration(old(disk.files), disk.files, In(root, "settings"), inputs, INPUTS, name);
      }
    }
  }
}
