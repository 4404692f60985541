/**
Hot reload of the block file (caddy-plugins/mirror/ipblock.go, `reload` and `watch`). The watcher stats the
file, reads it and stores the parsed set, while another process replaces, removes or locks the file between
any two of these steps and requests read the published set at any time.
*/
module IpReload {
  import opened Wrappers
  import opened IpBlock

  /** Modification time and size. ZERO stands for Go's zero time with size 0. */
  datatype Stamp = Stamp(mtime: nat, size: nat)

  const ZERO := Stamp(0, 0)

  /** What a scanner delivers for a file: its lines, and behind how many of them it records an error, if it does. */
  datatype Content = Content(lines: seq<string>, failure: Option<nat>)

  /** The entries a read of the content loads; None is the scanner's error. */
  ghost function Parse(np: Netip, c: Content): Option<seq<Entry>> {
    if FailsInTime(np, c.lines, c.failure) then None else Some(First(ReadEntries(np, c.lines), CAP))
  }

  // ---------- One reload ----------

  /** What the watcher keeps: the published entries and the stamp they were read under. */
  datatype Kept = Kept(published: seq<Entry>, seen: Stamp)

  /** One call of `reload` whose stat and read had the given outcomes. */
  ghost function AfterReload(np: Netip, k: Kept, force: bool, stat: Option<Stamp>, read: Option<Content>): Kept {
    match stat
    case None => if k.seen != ZERO then Kept([], ZERO) else k
    case Some(stamp) =>
      if !force && stamp == k.seen then k
      else if read.None? || Parse(np, read.value).None? then k
      else Kept(Parse(np, read.value).value, stamp)
  }

  class IPBlockState {
    const file: string
    var sets: PrefixSets
    var mtime: nat
    var size: nat

    ghost predicate Valid()
      reads this, sets, sets.block, sets.allow
    {
      sets.Valid()
    }

    ghost function View(): Kept
      reads this, sets
    {
      Kept(sets.read, Stamp(mtime, size))
    }

    constructor (file: string)
      ensures Valid() && View() == Kept([], ZERO) && this.file == file
    {
      this.file := file;
      sets := new PrefixSets();
      mtime, size := 0, 0;
    }

    /** `stat` and `read` are what the operating system answers during the call. */
    method Reload(np: Netip, force: bool, stat: Option<Stamp>, read: Option<Content>)
      requires Valid()
      modifies this
      ensures Valid()
      ensures View() == if file == "" then old(View()) else AfterReload(np, old(View()), force, stat, read)
      ensures sets == old(sets) || fresh(sets)
    {
      if file == "" {
        return;
      }
      match stat
      case None =>
        if mtime != 0 || size != 0 {
          sets := new PrefixSets();
          mtime, size := 0, 0;
        }
      case Some(st) =>
        if !force && st.mtime == mtime && st.size == size {
          return;
        }
        if read.None? {
          return;
        }
        var loaded, err := ParseIPBlock(np, read.value.lines, read.value.failure);
        if err {
          return;
        }
        sets := loaded;
        mtime, size := st.mtime, st.size;
    }

    /** What a request sees. */
    method Match(a: Addr) returns (blocked: bool)
      requires Valid()
      ensures blocked <==> Verdict(View().published, a)
    {
      blocked := sets.Blocked(a);
    }
  }

  // ---------- The protocol ----------

  datatype File = File(stamp: Stamp, content: Content, readable: bool)

  /** Where the watcher is inside `reload`. */
  datatype Stage = Idle | Statted(stamp: Stamp) | Loaded(stamp: Stamp, entries: seq<Entry>)

  datatype World = World(
    file: Option<File>,
    kept: Kept,
    stage: Stage,
    used: set<Stamp>,         // every stamp a file has had so far
    versions: set<Content>)   // every content a file has had so far

  datatype Event =
    | Replace(file: File)     // another process puts a whole new file in place
    | Remove
    | Chmod(readable: bool)   // keeps the modification time
    | Stat(force: bool, fails: bool)
    | Read(fails: bool)
    | Store

  const START := World(None, Kept([], ZERO), Idle, {ZERO}, {})

  /**
  The watcher's steps come in their order (a mutex holds them together); a new file has a stamp never used before.
  */
  predicate Enabled(w: World, e: Event) {
    match e
    case Replace(f) => f.stamp !in w.used
    case Stat(_, _) => w.stage.Idle?
    case Read(_) => w.stage.Statted?
    case Store => w.stage.Loaded?
    case _ => true
  }

  ghost function Step(np: Netip, w: World, e: Event): World
    requires Enabled(w, e)
  {
    match e
    case Replace(f) => w.(file := Some(f), used := w.used + {f.stamp}, versions := w.versions + {f.content})
    case Remove => w.(file := None)
    case Chmod(b) => if w.file.Some? then w.(file := Some(w.file.value.(readable := b))) else w
    case Stat(force, fails) =>
      if fails || w.file.None? then
        w.(kept := if w.kept.seen != ZERO then Kept([], ZERO) else w.kept)
      else if !force && w.file.value.stamp == w.kept.seen then w
      else w.(stage := Statted(w.file.value.stamp))
    case Read(fails) =>
      if fails || w.file.None? || !w.file.value.readable || Parse(np, w.file.value.content).None? then w.(stage := Idle)
      else w.(stage := Loaded(w.stage.stamp, Parse(np, w.file.value.content).value))
    case Store => w.(kept := Kept(w.stage.entries, w.stage.stamp), stage := Idle)
  }

  ghost predicate IsRun(np: Netip, w: World, es: seq<Event>)
    decreases |es|
  {
    es == [] || (Enabled(w, es[0]) && IsRun(np, Step(np, w, es[0]), es[1..]))
  }

  ghost function After(np: Netip, w: World, es: seq<Event>): World
    requires IsRun(np, w, es)
    decreases |es|
  {
    if es == [] then w else After(np, Step(np, w, es[0]), es[1..])
  }

  // ---------- Safety over every run ----------

  /** The entries are those of the current file, provided it still carries the stamp. */
  ghost predicate CurrentIf(np: Netip, w: World, stamp: Stamp, entries: seq<Entry>) {
    w.file.Some? && w.file.value.stamp == stamp ==> Parse(np, w.file.value.content) == Some(entries)
  }

  /** The entries are those of one whole version of the file. */
  ghost predicate OneVersion(np: Netip, w: World, entries: seq<Entry>) {
    exists c :: c in w.versions && Parse(np, c) == Some(entries)
  }

  ghost predicate Inv(np: Netip, w: World) {
    && ZERO in w.used && w.kept.seen in w.used
    && (w.file.Some? ==>
          var f := w.file.value; f.stamp in w.used && f.stamp != ZERO && f.content in w.versions)
    && CurrentIf(np, w, w.kept.seen, w.kept.published)
    && (w.kept.published == [] || OneVersion(np, w, w.kept.published))
    && (w.kept.seen == ZERO ==> w.kept.published == [])
    && match w.stage {
         case Idle => true
         case Statted(stamp) => stamp in w.used && stamp != ZERO
         case Loaded(stamp, entries) => stamp in w.used && stamp != ZERO && CurrentIf(np, w, stamp, entries)
             && OneVersion(np, w, entries)
       }
  }

  lemma StepKeepsInv(np: Netip, w: World, e: Event)
    requires Inv(np, w) && Enabled(w, e)
    ensures Inv(np, Step(np, w, e))
  {
    var w' := Step(np, w, e);
    forall entries | OneVersion(np, w, entries) ensures OneVersion(np, w', entries) {
      var c :| c in w.versions && Parse(np, c) == Some(entries);
      assert c in w'.versions;
    }
  }

  lemma {:induction false} RunKeepsInv(np: Netip, w: World, es: seq<Event>)
    requires Inv(np, w) && IsRun(np, w, es)
    ensures Inv(np, After(np, w, es))
    decreases |es|
  {
    if es != [] {
      StepKeepsInv(np, w, es[0]);
      RunKeepsInv(np, Step(np, w, es[0]), es[1..]);
    }
  }

  /**
  In every interleaving: a recorded stamp equal to the file's stamp means the published set is the parse of the
  file, and what a request sees is the verdict of nothing or of one whole version of the file.
  */
  lemma PublishedIsCurrent(np: Netip, es: seq<Event>)
    requires IsRun(np, START, es)
    ensures var w := After(np, START, es);
      && (w.file.Some? && w.file.value.stamp == w.kept.seen ==>
            Parse(np, w.file.value.content) == Some(w.kept.published))
      && (w.kept.published == [] || exists c :: c in w.versions && Parse(np, c) == Some(w.kept.published))
  {
    RunKeepsInv(np, START, es);
  }

  // ---------- Catching up ----------

  /** The rest of a reload in progress, without failures of the watcher's own calls. */
  function Finish(s: Stage): seq<Event> {
    match s
    case Idle => []
    case Statted(_) => [Read(false), Store]
    case Loaded(_, _) => [Store]
  }

  /** Runs the steps that are enabled and drops the others: a reload that returns early. */
  ghost function Drive(np: Netip, w: World, es: seq<Event>): World
    decreases |es|
  {
    if es == [] then w else Drive(np, if Enabled(w, es[0]) then Step(np, w, es[0]) else w, es[1..])
  }

  /** One tick of the watcher with nobody else acting. */
  ghost function Tick(np: Netip, w: World, force: bool): World {
    Drive(np, w, [Stat(force, false), Read(false), Store])
  }

  /** An undisturbed tick is one call of `reload`. */
  lemma TickIsReload(np: Netip, w: World, force: bool)
    requires w.stage.Idle?
    ensures Tick(np, w, force) == w.(kept := AfterReload(np, w.kept, force,
              if w.file.Some? then Some(w.file.value.stamp) else None,
              if w.file.Some? && w.file.value.readable then Some(w.file.value.content) else None))
  {
    var es := [Stat(force, false), Read(false), Store];
    assert es[1..] == [Read(false), Store] && es[2..] == [Store] && es[1..][1..] == [Store] && [Store][1..] == [];
    var w1 := Step(np, w, es[0]);
    assert Drive(np, w, es) == Drive(np, w1, [Read(false), Store]);
    var w2 := if Enabled(w1, Read(false)) then Step(np, w1, Read(false)) else w1;
    assert [Read(false), Store][1..] == [Store];
    assert Drive(np, w1, [Read(false), Store]) == Drive(np, w2, [Store]);
    var w3 := if Enabled(w2, Store) then Step(np, w2, Store) else w2;
    assert Drive(np, w2, [Store]) == Drive(np, w3, []);
  }

  /**
  From every reachable world: once the file stays as it is and can be read, finishing the reload in progress and
  one more tick publish its entries; once it stays away, they publish nothing.
  */
  lemma OneMoreTickCatchesUp(np: Netip, es: seq<Event>)
    requires IsRun(np, START, es)
    ensures var w := After(np, START, es);
      var w' := Tick(np, Drive(np, w, Finish(w.stage)), false);
      && (w.file.Some? && w.file.value.readable && Parse(np, w.file.value.content).Some? ==>
            Some(w'.kept.published) == Parse(np, w.file.value.content) && w'.kept.seen == w.file.value.stamp)
      && (w.file.None? ==> w'.kept == Kept([], ZERO))
  {
    var w := After(np, START, es);
    RunKeepsInv(np, START, es);
    FinishKeepsInv(np, w);
    TickIsReload(np, Drive(np, w, Finish(w.stage)), false);
  }

  lemma FinishKeepsInv(np: Netip, w: World)
    requires Inv(np, w)
    ensures var w' := Drive(np, w, Finish(w.stage));
      Inv(np, w') && w'.stage.Idle? && w'.file == w.file
  {
    match w.stage
    case Idle =>
    case Loaded(_, _) =>
      StepKeepsInv(np, w, Store);
      assert [Store][1..] == [];
      assert Drive(np, w, [Store]) == Drive(np, Step(np, w, Store), []);
    case Statted(_) =>
      var w1 := Step(np, w, Read(false));
      StepKeepsInv(np, w, Read(false));
      assert [Read(false), Store][1..] == [Store] && [Store][1..] == [];
      assert Drive(np, w, [Read(false), Store]) == Drive(np, w1, [Store]);
      if w1.stage.Loaded? {
        StepKeepsInv(np, w1, Store);
        assert Drive(np, w1, [Store]) == Drive(np, Step(np, w1, Store), []);
      } else {
        assert Drive(np, w1, [Store]) == Drive(np, w1, []);
      }
  }

  // ---------- Where the promise ends ----------

  /**
  Without fresh stamps a tick is late for ever: in any world with a readable file it publishes the file's entries
  exactly when the stamp differs from the recorded one or the set happens to be right already.
  */
  lemma TickPublishesExactly(np: Netip, w: World)
    requires w.stage.Idle? && w.file.Some? && w.file.value.readable && Parse(np, w.file.value.content).Some?
    ensures Some(Tick(np, w, false).kept.published) == Parse(np, w.file.value.content)
       <==> w.file.value.stamp != w.kept.seen || Some(w.kept.published) == Parse(np, w.file.value.content)
  {
    TickIsReload(np, w, false);
  }

  ghost predicate CanLoad(np: Netip, f: File) { f.readable && Parse(np, f.content).Some? }

  /**
  The comment of the matcher (line 13) makes an unreadable file an empty set. The code keeps the last set when
  the file exists but cannot be opened or scanned, whatever was published before.
  */
  lemma UnreadableFileKeepsTheSet(np: Netip, w: World, force: bool)
    requires w.stage.Idle? && w.file.Some? && !CanLoad(np, w.file.value)
    ensures Tick(np, w, force) == w
  {
    TickIsReload(np, w, force);
  }

  /**
  When the comment holds: in every reachable world whose file is missing or cannot be loaded, a tick leaves the empty
  set exactly when the file is missing or nothing was published before.
  */
  lemma EmptySetExactly(np: Netip, es: seq<Event>, force: bool)
    requires IsRun(np, START, es)
    requires var w := After(np, START, es); w.stage.Idle? && (w.file.Some? ==> !CanLoad(np, w.file.value))
    ensures var w := After(np, START, es);
      Tick(np, w, force).kept.published == [] <==> w.file.None? || w.kept.published == []
  {
    RunKeepsInv(np, START, es);
    TickIsReload(np, After(np, START, es), force);
  }

  lemma RunCons(np: Netip, w: World, e: Event, es: seq<Event>)
    requires Enabled(w, e) && IsRun(np, Step(np, w, e), es)
    ensures IsRun(np, w, [e] + es) && After(np, w, [e] + es) == After(np, Step(np, w, e), es)
  {
    assert ([e] + es)[1..] == es;
  }

  /** A file is loaded and then replaced by one that cannot be loaded. */
  function Spoiled(f: File, g: File): seq<Event> {
    [Replace(f)] + ([Stat(false, false)] + ([Read(false)] + ([Store] + ([Replace(g)] + []))))
  }

  /** And it fails: after any loadable file with entries, an unreadable one leaves those entries in force. */
  lemma UnreadableFileBlocksOn(np: Netip, f: File, g: File, force: bool)
    requires CanLoad(np, f) && Parse(np, f.content) != Some([]) && !CanLoad(np, g)
    requires f.stamp != ZERO && g.stamp != ZERO && f.stamp != g.stamp
    ensures IsRun(np, START, Spoiled(f, g))
    ensures var w := After(np, START, Spoiled(f, g));
      && w.stage.Idle? && w.file == Some(g)
      && Some(Tick(np, w, force).kept.published) == Parse(np, f.content) != Some([])
  {
    var w1 := Step(np, START, Replace(f));
    var w2 := Step(np, w1, Stat(false, false));
    var w3 := Step(np, w2, Read(false));
    var w4 := Step(np, w3, Store);
    var w5 := Step(np, w4, Replace(g));
    RunCons(np, w4, Replace(g), []);
    RunCons(np, w3, Store, [Replace(g)] + []);
    RunCons(np, w2, Read(false), [Store] + ([Replace(g)] + []));
    RunCons(np, w1, Stat(false, false), [Read(false)] + ([Store] + ([Replace(g)] + [])));
    RunCons(np, START, Replace(f), [Stat(false, false)] + ([Read(false)] + ([Store] + ([Replace(g)] + []))));
    UnreadableFileKeepsTheSet(np, w5, force);
  }
}
