/** Self-update as a transaction over the installed files: the live binary, the package
    directory it may point into, their stashes, and bun's global package.json. Every external
    command may leave the live files in any state and report any result. */
module UpdateTransaction {
  import opened Wrappers

  /** A directory tree: its files by path, or nothing there. */
  datatype Dir = NoDir | Dir(files: map<string, string>)

  /** What stands at a binary's path. A link either points into the package directory or to
      some other place, which may or may not exist. */
  datatype Bin = NoBin | File(data: string) | LinkIntoPackage(path: string) | LinkElsewhere(target: string, live: bool)

  /** The global package.json: parsed, or not valid JSON. */
  datatype Manifest = Parsed(dependencies: map<string, string>, other: string) | Corrupt(text: string)

  /** What an external command leaves behind: it may not even start, and else it has an exit code. */
  datatype Outcome = Outcome(threw: bool, code: int, bin: Bin, pkg: Dir, manifest: Option<Manifest>)

  /** A version probe: it runs and passes or fails, or it cannot be started. */
  datatype Probe = Passes | Fails | CannotStart

  /** Everything one update cannot control. */
  datatype Env = Env(
    readable: bool,            // can the global package.json be read
    unpins: bool,              // does writing it without the pins succeed, at first
    unpinsAgain: bool,         // and on the fallback, reading included
    restoresManifest: bool,    // does writing its backup succeed
    firstAdd: Outcome, removeMawJs: Outcome, removeMaw: Outcome, secondAdd: Outcome,
    download: Outcome, chmod: Outcome,
    downloadRuns: Probe,       // the version probe after the download
    freshRuns: Probe,          // the version probe before the stashes are discarded
    rotates: bool, stashesBin: bool, stashesPkg: bool,
    removal: Option<Dir>,      // what a failing removal of the new package directory leaves of it
    restoresPkg: bool, restoresBin: bool)

  /** A package directory that is stashed comes back; bun and curl stay away from the stash anyway. */
  predicate PackageComesBack(env: Env) {
    env.stashesPkg && env.removal.None? && env.restoresPkg
  }

  /** So does a binary that is stashed, a link into the package if that comes back. */
  predicate BinaryComesBack(env: Env) {
    env.stashesBin && env.restoresBin && (env.firstAdd.bin.LinkIntoPackage? ==> PackageComesBack(env))
  }

  /** An update ends well, or with an exit code, or in an exception of a command that cannot start. */
  datatype Exit = Success | Failure(code: int) | Thrown

  /** Does the path lead to a file? Links are followed. */
  predicate Exists(bin: Bin, pkg: Dir) {
    match bin
    case NoBin => false
    case File(_) => true
    case LinkIntoPackage(path) => pkg.Dir? && path in pkg.files
    case LinkElsewhere(_, live) => live
  }

  predicate IsPinned(key: string, dependencies: map<string, string>) {
    key in dependencies && dependencies[key] != ""
  }

  /** package.json without the pins of the package and of its old name. */
  function Unpinned(m: Manifest): Manifest {
    match m
    case Corrupt(_) => m
    case Parsed(deps, other) =>
      Parsed(map k | k in deps && !((k == "maw-js" || k == "maw") && IsPinned(k, deps)) :: deps[k], other)
  }

  /** The update refuses to go on: a stale stash stands in the way and cannot be rotated. */
  predicate Refuses(stash: Bin, env: Env) {
    Exists(stash, env.firstAdd.pkg) && !env.rotates
  }

  /** A command of the retry or its version probe cannot be started. */
  predicate RetryThrows(env: Env) {
    || env.secondAdd.threw
    || (env.secondAdd.code != 0 &&
        (env.download.threw || (env.download.code == 0 && (env.chmod.threw || env.downloadRuns.CannotStart?))))
  }

  /** The second add works, or the downloaded binary runs. */
  predicate RetrySucceeds(env: Env) {
    env.secondAdd.code == 0 || (env.download.code == 0 && env.downloadRuns.Passes?)
  }

  /** package.json as the retry leaves it. */
  function AfterRetry(env: Env): Option<Manifest> {
    if env.secondAdd.threw || env.secondAdd.code == 0 then env.secondAdd.manifest
    else if env.download.threw || env.download.code != 0 then env.download.manifest
    else env.chmod.manifest
  }

  /** The update ends in an exception, given the stash it finds. */
  predicate Throws(stash: Bin, env: Env) {
    || env.firstAdd.threw
    || (env.firstAdd.code != 0 && !Refuses(stash, env) &&
        (RetryThrows(env) || (RetrySucceeds(env) && env.freshRuns.CannotStart?)))
  }

  /** package.json as the commands of the fallback leave it. */
  function LeftBehind(stash: Bin, env: Env): Option<Manifest> {
    if Refuses(stash, env) then env.firstAdd.manifest else AfterRetry(env)
  }

  /** The live files are as the first attempt left them, package and binary each if it comes back. */
  predicate IsRestored(env: Env, bin: Bin, pkg: Dir) {
    && (PackageComesBack(env) && env.firstAdd.pkg.Dir? ==> pkg == env.firstAdd.pkg)
    && (BinaryComesBack(env) && Exists(env.firstAdd.bin, env.firstAdd.pkg) ==> bin == env.firstAdd.bin)
  }

  /** What the first attempt left and was stashed is live or still in its stash. */
  predicate NothingIsLost(env: Env, bin: Bin, stash: Bin, pkg: Dir, pkgStash: Dir) {
    && (env.stashesBin && Exists(env.firstAdd.bin, env.firstAdd.pkg) ==>
          bin == env.firstAdd.bin || stash == env.firstAdd.bin)
    && (env.stashesPkg && env.firstAdd.pkg.Dir? ==> pkg == env.firstAdd.pkg || pkgStash == env.firstAdd.pkg)
  }

  predicate HasPins(m: Manifest) {
    m.Parsed? && (IsPinned("maw-js", m.dependencies) || IsPinned("maw", m.dependencies))
  }

  /** Taking the pins out removes the two package names that have a version, and nothing else. */
  lemma UnpinningDropsThePins(m: Manifest, key: string)
    ensures m.Corrupt? ==> Unpinned(m) == m
    ensures m.Parsed? ==>
              var u := Unpinned(m);
              && u.Parsed? && u.other == m.other
              && (key in u.dependencies <==>
                  key in m.dependencies && (m.dependencies[key] == "" || (key != "maw-js" && key != "maw")))
              && (key in u.dependencies ==> u.dependencies[key] == m.dependencies[key])
  {
  }

  /** Taking the pins out shows exactly when there are any. */
  lemma UnpinnedIsUnchanged(m: Manifest)
    ensures Unpinned(m) == m <==> !HasPins(m)
  {
    if m.Parsed? {
      var deps, left := m.dependencies, Unpinned(m).dependencies;
      assert IsPinned("maw-js", deps) ==> "maw-js" !in left;
      assert IsPinned("maw", deps) ==> "maw" !in left;
      if !HasPins(m) {
        assert left == deps;
      }
    }
  }

  class Install {
    var bin: Bin
    var stash: Bin
    var archived: Bin
    var pkg: Dir
    var pkgStash: Dir
    var manifest: Option<Manifest>

    constructor (bin: Bin, stash: Bin, pkg: Dir, pkgStash: Dir, manifest: Option<Manifest>)
      ensures this.bin == bin && this.stash == stash && this.pkg == pkg && this.pkgStash == pkgStash
      ensures this.manifest == manifest
    {
      this.bin, this.stash, this.archived := bin, stash, NoBin;
      this.pkg, this.pkgStash, this.manifest := pkg, pkgStash, manifest;
    }

    method Unpin(succeeds: bool)
      modifies this`manifest
      ensures manifest == if succeeds && old(manifest).Some? then Some(Unpinned(old(manifest).value)) else old(manifest)
    {
      if succeeds && manifest.Some? {
        manifest := Some(Unpinned(manifest.value));
      }
    }

    /** Takes the pins out of package.json before the first attempt; the backup undoes it. A write
        that fails leaves the file as it was. */
    method ClearResolverState(readable: bool, unpins: bool) returns (backup: Option<Manifest>)
      modifies this`manifest
      ensures backup == if readable then old(manifest) else None
      ensures manifest == if backup.Some? && unpins then Some(Unpinned(backup.value)) else old(manifest)
    {
      backup := if readable then manifest else None;
      Unpin(readable && unpins);
    }

    /** An external command: the live files are whatever it leaves behind. */
    method External(o: Outcome)
      modifies this`bin, this`pkg, this`manifest
      ensures bin == o.bin && pkg == o.pkg && manifest == o.manifest
    {
      bin, pkg, manifest := o.bin, o.pkg, o.manifest;
    }

    /** Puts the stashed package directory back over whatever is there now. A removal that fails
        leaves something of the new directory, and the stash where it is. */
    method RestorePkg(pkgStashed: bool, removal: Option<Dir>, restores: bool)
      modifies this`pkg, this`pkgStash
      ensures if !pkgStashed || old(pkgStash) == NoDir then pkg == old(pkg) && pkgStash == old(pkgStash)
              else if removal.Some? then pkg == removal.value && pkgStash == old(pkgStash)
              else if restores then pkg == old(pkgStash) && pkgStash == NoDir
              else pkg == NoDir && pkgStash == old(pkgStash)
    {
      if !pkgStashed || pkgStash == NoDir {
        return;
      }
      if removal.Some? {
        pkg := removal.value;
        return;
      }
      pkg := NoDir;
      if restores {
        pkg := pkgStash;
        pkgStash := NoDir;
      }
    }

    /** Package first, then binary: the stashed binary may be a link into the package. */
    method RollBack(stashed: bool, pkgStashed: bool, env: Env)
      modifies this`bin, this`stash, this`pkg, this`pkgStash
      ensures if !pkgStashed || old(pkgStash) == NoDir then pkg == old(pkg) && pkgStash == old(pkgStash)
              else if env.removal.Some? then pkg == env.removal.value && pkgStash == old(pkgStash)
              else if env.restoresPkg then pkg == old(pkgStash) && pkgStash == NoDir
              else pkg == NoDir && pkgStash == old(pkgStash)
      ensures if stashed && Exists(old(stash), pkg) && env.restoresBin then bin == old(stash) && stash == NoBin
              else bin == old(bin) && stash == old(stash)
    {
      RestorePkg(pkgStashed, env.removal, env.restoresPkg);
      if stashed && Exists(stash, pkg) && env.restoresBin {
        bin := stash;
        stash := NoBin;
      }
    }

    /** Rotates a stale stash away, then moves the live binary and the package directory aside.
        Refuses to go on when a stale stash cannot be rotated. */
    method StashLive(env: Env) returns (refused: bool, stashed: bool, pkgStashed: bool)
      modifies this
      ensures refused == (Exists(old(stash), old(pkg)) && !env.rotates)
      ensures refused ==> bin == old(bin) && pkg == old(pkg) && manifest == old(manifest) && stash == old(stash)
      ensures !refused ==>
                && stashed == (Exists(old(bin), old(pkg)) && env.stashesBin)
                && pkgStashed == (old(pkg).Dir? && env.stashesPkg)
                && (stashed ==> stash == old(bin))
                && (pkgStashed ==> pkgStash == old(pkg))
      ensures archived == if Exists(old(stash), old(pkg)) && env.rotates then old(stash) else old(archived)
    {
      stashed, pkgStashed := false, false;
      if Exists(stash, pkg) {
        if !env.rotates {
          return true, stashed, pkgStashed;
        }
        archived := stash;
        stash := NoBin;
      }
      if Exists(bin, pkg) && env.stashesBin {
        stash := bin;
        bin := NoBin;
        stashed := true;
      }
      Unpin(env.unpinsAgain);
      pkgStash := NoDir;
      if pkg.Dir? && env.stashesPkg {
        pkgStash := pkg;
        pkg := NoDir;
        pkgStashed := true;
      }
      refused := false;
    }

    /** Removes and adds again; if that fails, downloads the release binary. */
    method Retry(env: Env) returns (threw: bool, installCode: int)
      modifies this`bin, this`pkg, this`manifest
      ensures threw == RetryThrows(env)
      ensures !threw ==> installCode == if RetrySucceeds(env) then 0 else env.secondAdd.code
      ensures !threw && RetrySucceeds(env) ==>
                var last := if env.secondAdd.code == 0 then env.secondAdd else env.chmod;
                bin == last.bin && pkg == last.pkg
      ensures manifest == AfterRetry(env)
    {
      External(env.removeMawJs);
      External(env.removeMaw);
      External(env.secondAdd);
      if env.secondAdd.threw { return true, 0; }
      installCode := env.secondAdd.code;
      if installCode != 0 {
        External(env.download);
        if env.download.threw { return true, 0; }
        if env.download.code == 0 {
          External(env.chmod);
          if env.chmod.threw || env.downloadRuns.CannotStart? { return true, 0; }
          if env.downloadRuns.Passes? {
            installCode := 0;
          }
        }
      }
      threw := false;
    }

    /** Keeps a fresh install that runs and drops the stashes; rolls back one that does not, or that
        was not installed. A probe that cannot be started ends the update before either. */
    method Settle(env: Env, installCode: int, stashed: bool, pkgStashed: bool)
      returns (threw: bool, code: int, ghost probed: (Bin, Dir))
      modifies this`bin, this`stash, this`pkg, this`pkgStash
      ensures threw == (installCode == 0 && env.freshRuns.CannotStart?)
      ensures threw ==> bin == old(bin) && pkg == old(pkg) && stash == old(stash) && pkgStash == old(pkgStash)
      ensures !threw ==> code == if installCode == 0 && env.freshRuns.Fails? then 1 else installCode
      ensures !threw && code == 0 ==>
                env.freshRuns.Passes? && probed == (bin, pkg) && bin == old(bin) && pkg == old(pkg)
      ensures !threw && code != 0 ==>
                && (if !pkgStashed || old(pkgStash) == NoDir then pkg == old(pkg)
                    else if env.removal.None? && env.restoresPkg then pkg == old(pkgStash)
                    else pkgStash == old(pkgStash))
                && (if stashed && Exists(old(stash), pkg) && env.restoresBin then bin == old(stash)
                    else bin == old(bin) && stash == old(stash))
    {
      threw, code := false, installCode;
      probed := (bin, pkg);
      if installCode != 0 {
        RollBack(stashed, pkgStashed, env);
      } else if env.freshRuns.CannotStart? {
        threw := true;
      } else if env.freshRuns.Fails? {
        RollBack(stashed, pkgStashed, env);
        code := 1;
      } else {
        if stashed && Exists(stash, pkg) { stash := NoBin; }
        if pkgStashed { pkgStash := NoDir; }
      }
    }

    /** What follows a first attempt that fails: stash, retry, and keep or roll back. */
    method FallBack(env: Env) returns (refused: bool, exit: Exit, ghost probed: (Bin, Dir))
      requires bin == env.firstAdd.bin && pkg == env.firstAdd.pkg && manifest == env.firstAdd.manifest
      modifies this
      ensures refused == Refuses(old(stash), env)
      ensures exit.Thrown? <==>
              !Refuses(old(stash), env) && (RetryThrows(env) || (RetrySucceeds(env) && env.freshRuns.CannotStart?))
      ensures exit.Failure? ==>
                && IsRestored(env, bin, pkg)
                && exit.code == if Refuses(old(stash), env) || RetrySucceeds(env) then 1 else env.secondAdd.code
      ensures exit.Success? <==>
              !Refuses(old(stash), env) && !RetryThrows(env) && RetrySucceeds(env) && env.freshRuns.Passes?
      ensures exit.Success? ==>
                var last := if env.secondAdd.code == 0 then env.secondAdd else env.chmod;
                bin == last.bin && pkg == last.pkg
      ensures !exit.Success? ==> NothingIsLost(env, bin, stash, pkg, pkgStash)
      ensures exit.Success? ==> env.freshRuns.Passes? && probed == (bin, pkg)
      ensures manifest == LeftBehind(old(stash), env)
      ensures archived == if Exists(old(stash), env.firstAdd.pkg) && env.rotates then old(stash) else old(archived)
      ensures Refuses(old(stash), env) ==>
                exit == Failure(1) && bin == env.firstAdd.bin && pkg == env.firstAdd.pkg && stash == old(stash)
    {
      hide RetryThrows, AfterRetry;
      probed := (bin, pkg);
      var stashed, pkgStashed: bool;
      refused, stashed, pkgStashed := StashLive(env);
      if refused { return refused, Failure(1), probed; }
      var threw, code := Retry(env);
      if threw { return refused, Thrown, probed; }
      threw, code, probed := Settle(env, code, stashed, pkgStashed);
      if threw { return refused, Thrown, probed; }
      exit := if code == 0 then Success else Failure(code);
    }

    /** The locked part of an update. `probed` is what the last passed version probe ran on. */
    method Update(env: Env) returns (exit: Exit, ghost probed: (Bin, Dir))
      modifies this
      // how it ends: in an exception exactly when a command on its way cannot be started; with an
      // exit code only after the fallback
      ensures exit.Thrown? <==> Throws(old(stash), env)
      ensures exit.Failure? ==> exit.code != 0 && !env.firstAdd.threw && env.firstAdd.code != 0
      // that of the second add, or 1 after a refusal or a fresh install that does not run
      ensures exit.Failure? ==>
                exit.code == if Refuses(old(stash), env) || env.secondAdd.code == 0
                                || (env.download.code == 0 && env.downloadRuns == Passes)
                             then 1 else env.secondAdd.code
      // and well exactly when the first add works, or the second or the download, and then runs
      ensures exit.Success? <==>
              && !Throws(old(stash), env)
              && (|| env.firstAdd.code == 0
                  || (&& !Refuses(old(stash), env) && env.freshRuns == Passes
                      && (env.secondAdd.code == 0 || (env.download.code == 0 && env.downloadRuns == Passes))))
      ensures exit.Success? ==>
                var last := if env.firstAdd.code == 0 then env.firstAdd
                            else if env.secondAdd.code == 0 then env.secondAdd else env.chmod;
                bin == last.bin && pkg == last.pkg && manifest == last.manifest
      // with an exit code, the live files are as the first attempt left them; so if that changed
      // nothing, a working install is back as it was
      ensures exit.Failure? ==> IsRestored(env, bin, pkg)
      ensures exit.Failure? && PackageComesBack(env) && BinaryComesBack(env)
              && Exists(old(bin), old(pkg)) && old(pkg).Dir?
              && env.firstAdd.bin == old(bin) && env.firstAdd.pkg == old(pkg) ==>
                bin == old(bin) && pkg == old(pkg)
      // that is, if nothing fails that puts it back: a plain file, a link to a file of the package, and
      // a live link to another place come back, and so does the package
      ensures exit.Failure? && env.firstAdd.bin == old(bin) && env.firstAdd.pkg == old(pkg)
              && env.stashesBin && env.stashesPkg && env.removal == None && env.restoresPkg && env.restoresBin ==>
                && (old(pkg) != NoDir ==> pkg == old(pkg))
                && (old(bin).File? ==> bin == old(bin))
                && (old(bin).LinkIntoPackage? && old(pkg) != NoDir && old(bin).path in old(pkg).files ==>
                      bin == old(bin))
                && (old(bin).LinkElsewhere? && old(bin).live ==> bin == old(bin))
      // and package.json is as it was before the update, unless the update was refused or the backup
      // cannot be written; then, as after an exception, it is what the commands left
      ensures exit.Failure? ==>
                manifest == if env.readable && old(manifest).Some? && !Refuses(old(stash), env) && env.restoresManifest
                            then old(manifest) else LeftBehind(old(stash), env)
      ensures exit.Thrown? ==>
                manifest == if env.firstAdd.threw then env.firstAdd.manifest else LeftBehind(old(stash), env)
      ensures exit.Failure? && env.readable && old(manifest).Some? ==>
                (manifest == old(manifest)
                 <==> || (!Refuses(old(stash), env) && env.restoresManifest)
                      || LeftBehind(old(stash), env) == old(manifest))
      // so after a refused update whose first attempt left package.json alone, it is as it was
      // exactly when there was nothing to unpin
      ensures exit.Failure? && Refuses(old(stash), env) && old(manifest).Some?
              && env.firstAdd.manifest == Some(Unpinned(old(manifest).value)) ==>
                (manifest == old(manifest) <==> !HasPins(old(manifest).value))
      // even when nothing comes back, and after an exception too, what was stashed is not lost
      ensures !exit.Success? && env.stashesBin && Exists(env.firstAdd.bin, env.firstAdd.pkg) ==>
                bin == env.firstAdd.bin || stash == env.firstAdd.bin
      ensures !exit.Success? && env.stashesPkg && env.firstAdd.pkg != NoDir ==>
                pkg == env.firstAdd.pkg || pkgStash == env.firstAdd.pkg
      // a success of the fallback is one whose last version probe passed, on the live files
      ensures exit.Success? && env.firstAdd.code != 0 ==> env.freshRuns.Passes? && probed == (bin, pkg)
      // a stale stash is kept aside when it is rotated; one that cannot be rotated stops the update
      // before it touches the live files
      ensures archived == if !env.firstAdd.threw && env.firstAdd.code != 0
                             && Exists(old(stash), env.firstAdd.pkg) && env.rotates
                          then old(stash) else old(archived)
      ensures !env.firstAdd.threw && env.firstAdd.code != 0
              && (|| old(stash).File? || (old(stash).LinkElsewhere? && old(stash).live)
                  || (old(stash).LinkIntoPackage? && env.firstAdd.pkg != NoDir
                      && old(stash).path in env.firstAdd.pkg.files)) ==>
                if env.rotates then archived == old(stash)
                else && exit == Failure(1) && stash == old(stash)
                     && bin == env.firstAdd.bin && pkg == env.firstAdd.pkg && manifest == env.firstAdd.manifest
      // where none stands, not even a live link, nothing is rotated and nothing refused
      ensures !env.firstAdd.threw && env.firstAdd.code != 0 && env.readable && env.restoresManifest
              && (|| old(stash) == NoBin || (old(stash).LinkElsewhere? && !old(stash).live)
                  || (old(stash).LinkIntoPackage?
                      && (env.firstAdd.pkg == NoDir || old(stash).path !in env.firstAdd.pkg.files))) ==>
                && archived == old(archived)
                && (exit.Failure? && old(manifest).Some? ==> manifest == old(manifest))
      ensures !env.firstAdd.threw && env.firstAdd.code != 0 && Refuses(old(stash), env) ==>
                && exit == Failure(1)
                && bin == env.firstAdd.bin && pkg == env.firstAdd.pkg && manifest == env.firstAdd.manifest
                && stash == old(stash)
    {
      hide Unpinned, HasPins;
      probed := (bin, pkg);
      if manifest.Some? { UnpinnedIsUnchanged(manifest.value); }
      var backup := ClearResolverState(env.readable, env.unpins);
      External(env.firstAdd);
      if env.firstAdd.threw { return Thrown, probed; }
      exit := Success;
      var refused := false;
      if env.firstAdd.code != 0 {
        refused, exit, probed := FallBack(env);
      }
      if exit.Failure? && !refused && backup.Some? && env.restoresManifest {
        manifest := backup;
      }
    }
  }
}
