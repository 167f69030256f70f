/** Carrying the user's files into a new installation by hard links.

    The new tree shares the inodes of every path the installer does not own.  Linking
    changes the link count and change time of those inodes, also for names the installer
    does own when they share an inode, and the installer predicts the resulting snapshot of
    the old tree.  Meanwhile other programs may change the old tree at any point. */
module HardLinks {
  import opened Prelude

  type Path = string

  const RECEIPT: Path := ".dstudio-source.json"

  datatype Kind = File | Directory | Symlink(text: string)

  /** `attributes` stands for mode, owner, group, size and modification time. */
  datatype Inode = Inode(kind: Kind, attributes: nat, changed: nat, links: nat)

  /** What a snapshot holds of one path. */
  datatype Stamp = Stamp(ino: nat, inode: Inode)

  type Snapshot = map<Path, Stamp>

  /** The old tree, the candidate, and the inodes their names lead to. */
  datatype Fs = Fs(tree: map<Path, nat>, candidate: map<Path, nat>, inodes: map<nat, Inode>, clock: nat, unused: nat)

  predicate FsOk(fs: Fs) {
    && (forall p :: p in fs.tree ==> fs.tree[p] in fs.inodes)
    && (forall p :: p in fs.candidate ==> fs.candidate[p] in fs.inodes)
    && (forall i :: i in fs.inodes ==> fs.inodes[i].changed < fs.clock && i < fs.unused)
  }

  function SnapshotOf(fs: Fs): Snapshot
    requires FsOk(fs)
  {
    map p | p in fs.tree :: Stamp(fs.tree[p], fs.inodes[fs.tree[p]])
  }

  // ----- Other programs -----

  /** The inode is gone or carries a new change time. */
  predicate Renewed(fs: Fs, next: Fs, ino: nat) {
    ino !in next.inodes || next.inodes[ino].changed >= fs.clock
  }

  /** Another program changed the old tree: a changed inode has a new change time, and so has
      the directory of any name that came or went.  The candidate is private, though it may
      share inodes with the tree. */
  predicate Foreign(fs: Fs, next: Fs)
    requires FsOk(fs)
  {
    && FsOk(next) && next.clock >= fs.clock && next.candidate == fs.candidate
    && (forall i :: i in next.inodes ==> (i in fs.inodes && next.inodes[i] == fs.inodes[i]) || Renewed(fs, next, i))
    && (exists p :: p in fs.tree && Renewed(fs, next, fs.tree[p]))
    && (next.tree != fs.tree ==>
          exists d :: d in fs.tree && fs.inodes[fs.tree[d]].kind.Directory? && Renewed(fs, next, fs.tree[d]))
    && (forall p :: p in fs.candidate ==> next.inodes[fs.candidate[p]].kind == fs.inodes[fs.candidate[p]].kind)
  }

  // ----- The installer's own operations -----

  /** `link(2)`: the candidate gets the name too; one more link and a new change time for the
      inode. */
  function Link(fs: Fs, name: Path): (next: Fs)
    requires FsOk(fs) && name in fs.tree
    ensures FsOk(next)
  {
    var i := fs.tree[name];
    var inode := fs.inodes[i].(links := fs.inodes[i].links + 1, changed := fs.clock);
    fs.(candidate := fs.candidate[name := i], inodes := fs.inodes[i := inode], clock := fs.clock + 1)
  }

  /** A new inode of the candidate: a directory or a symbolic link. */
  function Create(fs: Fs, to: Path, kind: Kind): (next: Fs)
    requires FsOk(fs)
    ensures FsOk(next)
  {
    fs.(candidate := fs.candidate[to := fs.unused], inodes := fs.inodes[fs.unused := Inode(kind, 0, fs.clock, 1)],
        clock := fs.clock + 1, unused := fs.unused + 1)
  }

  /** The enclosing directory of a relative path; the tree itself is the empty path. */
  function ParentOf(p: Path): (parent: Path)
    ensures p != "" ==> |parent| < |p| && parent <= p
  {
    if p == "" then "" else if p[|p| - 1] == '/' then p[..|p| - 1] else ParentOf(p[..|p| - 1])
  }

  predicate IsDirectory(fs: Fs, p: Path) {
    p in fs.candidate && fs.candidate[p] in fs.inodes && fs.inodes[fs.candidate[p]].kind.Directory?
  }

  // ----- The order of the names -----

  predicate Less(a: string, b: string) {
    b != [] && (a == [] || a[0] < b[0] || (a[0] == b[0] && Less(a[1..], b[1..])))
  }

  /** `sorted(snapshot)`: every name once, in lexicographic order. */
  ghost predicate SortedNames(order: seq<Path>, snapshot: Snapshot) {
    && (forall p :: p in order <==> p in snapshot)
    && (forall i, j :: 0 <= i < j < |order| ==> Less(order[i], order[j]))
  }

  lemma {:induction false} LessIrreflexive(a: string)
    ensures !Less(a, a)
  {
    if a != [] { LessIrreflexive(a[1..]); }
  }

  lemma {:induction false} LessAsymmetric(a: string, b: string)
    requires Less(a, b)
    ensures !Less(b, a)
  {
    if a != [] && a[0] == b[0] { LessAsymmetric(a[1..], b[1..]); }
  }

  lemma {:induction false} PrefixIsLess(a: string, b: string)
    requires a <= b && a != b
    ensures Less(a, b)
  {
    if a != [] {
      assert |a| == |b| ==> a == b;
      assert a[0] == b[0] && a[1..] <= b[1..] && |a[1..]| < |b[1..]|;
      PrefixIsLess(a[1..], b[1..]);
    }
  }

  /** In sorted order a directory comes before everything in it. */
  lemma ParentComesFirst(order: seq<Path>, snapshot: Snapshot, k: nat)
    requires SortedNames(order, snapshot) && k < |order| && order[k] != "" && ParentOf(order[k]) in snapshot
    ensures ParentOf(order[k]) in order[..k]
  {
    var parent := ParentOf(order[k]);
    PrefixIsLess(parent, order[k]);
    LessAsymmetric(parent, order[k]);
    LessIrreflexive(parent);
    var j :| 0 <= j < |order| && order[j] == parent;
    assert j < k;
    assert order[..k][j] == parent;
  }

  // ----- The predicted snapshot -----

  /** The prediction moves every name of the inode to its new stamp. */
  function Relinked(expected: Snapshot, ino: nat, linked: Stamp): Snapshot {
    map p | p in expected :: if expected[p].ino == ino then linked else expected[p]
  }

  /** Names of one inode carry one stamp. */
  ghost predicate Aliased(expected: Snapshot) {
    forall p, q :: p in expected && q in expected && expected[p].ino == expected[q].ino ==> expected[p] == expected[q]
  }

  /** The inode behind a recorded name is gone or younger than its stamp. */
  predicate Departed(fs: Fs, expected: Snapshot, p: Path)
    requires p in expected
  {
    expected[p].ino !in fs.inodes || fs.inodes[expected[p].ino].changed > expected[p].inode.changed
  }

  ghost predicate Tainted(fs: Fs, expected: Snapshot) {
    exists p :: p in expected && Departed(fs, expected, p)
  }

  ghost predicate Older(fs: Fs, expected: Snapshot) {
    forall p :: p in expected ==> expected[p].inode.changed < fs.clock
  }

  /** The prediction is exact as long as no visible foreign change happened, and
      irreparably wrong afterwards. */
  ghost predicate Tracks(fs: Fs, expected: Snapshot, visible: bool) {
    && FsOk(fs) && Older(fs, expected) && Aliased(expected)
    && (if visible then Tainted(fs, expected) else SnapshotOf(fs) == expected)
  }

  lemma SnapshotTracks(fs: Fs)
    requires FsOk(fs)
    ensures Tracks(fs, SnapshotOf(fs), false)
  {
  }

  lemma TaintedNeverMatches(fs: Fs, expected: Snapshot)
    requires FsOk(fs) && Tainted(fs, expected)
    ensures SnapshotOf(fs) != expected
  {
    var p :| p in expected && Departed(fs, expected, p);
    assert p in SnapshotOf(fs) ==> SnapshotOf(fs)[p] != expected[p];
  }

  lemma ForeignTaints(fs: Fs, next: Fs, expected: Snapshot, visible: bool)
    requires Tracks(fs, expected, visible) && Foreign(fs, next)
    ensures Tracks(next, expected, true)
  {
    if visible {
      var p :| p in expected && Departed(fs, expected, p);
      assert Departed(next, expected, p);
    } else {
      var p :| p in fs.tree && Renewed(fs, next, fs.tree[p]);
      assert p in SnapshotOf(fs) && Departed(next, expected, p);
    }
  }

  /** Creating something of its own in the candidate does not disturb the prediction. */
  lemma CreateTracks(fs: Fs, expected: Snapshot, visible: bool, to: Path, kind: Kind)
    requires Tracks(fs, expected, visible)
    ensures Tracks(Create(fs, to, kind), expected, visible)
  {
    if visible {
      var p :| p in expected && Departed(fs, expected, p);
      assert Departed(Create(fs, to, kind), expected, p);
    }
  }

  /** The comparison after a link: all but the change time, and one more link. */
  predicate LinkedAsExpected(before: Stamp, linked: Stamp) {
    && linked.ino == before.ino && linked.inode.kind == before.inode.kind
    && linked.inode.attributes == before.inode.attributes && linked.inode.links == before.inode.links + 1
  }

  // ----- The window of a link -----

  /** From the stamp check of a file to the stamp read after its link: another program may
      act before the link, after it, or both. */
  predicate Window(fs: Fs, mid: Fs, late: Fs, name: Path)
    requires FsOk(fs)
  {
    && (mid == fs || Foreign(fs, mid)) && name in mid.tree
    && (late == Link(mid, name) || Foreign(Link(mid, name), late))
  }

  /** All that happened in the window, taken together, is the link and at most a new change
      time of the linked inode. */
  predicate Covered(fs: Fs, late: Fs, name: Path)
    requires FsOk(fs) && FsOk(late)
  {
    && name in fs.tree && late.tree == fs.tree && name in late.candidate && late.candidate[name] == fs.tree[name]
    && (forall p :: p in fs.tree && fs.tree[p] != fs.tree[name] ==> late.inodes[fs.tree[p]] == fs.inodes[fs.tree[p]])
    && var inode := fs.inodes[fs.tree[name]];
       late.inodes[fs.tree[name]] == inode.(links := inode.links + 1, changed := late.inodes[fs.tree[name]].changed)
  }

  /** What the source reads after the link, at the new name. */
  function StampAt(late: Fs, name: Path): Stamp
    requires FsOk(late) && name in late.candidate
  {
    Stamp(late.candidate[name], late.inodes[late.candidate[name]])
  }

  /** What is not as it was carries a later change time. */
  ghost predicate Onward(fs: Fs, next: Fs) {
    && FsOk(next) && next.clock >= fs.clock
    && forall i :: i in next.inodes && !(i in fs.inodes && next.inodes[i] == fs.inodes[i]) ==> next.inodes[i].changed >= fs.clock
  }

  lemma OnwardTwice(a: Fs, b: Fs, c: Fs)
    requires Onward(a, b) && Onward(b, c)
    ensures Onward(a, c)
  {
  }

  lemma KeptTwice(a: Fs, b: Fs, c: Fs)
    requires FsOk(a) && FsOk(b) && FsOk(c) && CandidateKept(a, b) && CandidateKept(b, c)
    ensures CandidateKept(a, c)
  {
  }

  lemma ForeignMoves(fs: Fs, next: Fs)
    requires FsOk(fs) && (next == fs || Foreign(fs, next))
    ensures Onward(fs, next) && CandidateKept(fs, next) && next.candidate == fs.candidate
  {
  }

  lemma LinkMoves(fs: Fs, name: Path)
    requires FsOk(fs) && name in fs.tree && name !in fs.candidate
    ensures Onward(fs, Link(fs, name)) && CandidateKept(fs, Link(fs, name)) && Link(fs, name).clock > fs.clock
  {
  }

  lemma WindowMoves(fs: Fs, mid: Fs, late: Fs, name: Path)
    requires FsOk(fs) && Window(fs, mid, late, name) && name !in fs.candidate
    ensures Onward(fs, late) && late.clock > fs.clock && CandidateKept(fs, late)
    ensures late.candidate == fs.candidate[name := mid.tree[name]]
  {
    hide Foreign, CandidateKept;
    ForeignMoves(fs, mid);
    var linked := Link(mid, name);
    LinkMoves(mid, name);
    ForeignMoves(linked, late);
    OnwardTwice(fs, mid, linked);
    OnwardTwice(fs, linked, late);
    KeptTwice(fs, mid, linked);
    KeptTwice(fs, linked, late);
  }

  /** A change covered by the window leaves the prediction exact. */
  lemma HiddenChangeTracks(fs: Fs, mid: Fs, late: Fs, expected: Snapshot, name: Path)
    requires Tracks(fs, expected, false) && name in expected && FsOk(late) && late.clock > fs.clock && Covered(fs, late, name)
    ensures LinkedAsExpected(expected[name], StampAt(late, name))
    ensures Tracks(late, Relinked(expected, expected[name].ino, StampAt(late, name)), false)
  {
    assert SnapshotOf(fs) == expected && name in SnapshotOf(fs);
    assert SnapshotOf(late) == Relinked(expected, expected[name].ino, StampAt(late, name));
  }

  /** A prediction that was wrong before a link stays wrong. */
  lemma LinkKeepsTaint(fs: Fs, mid: Fs, late: Fs, expected: Snapshot, name: Path)
    requires Tracks(fs, expected, true) && Window(fs, mid, late, name) && name !in fs.candidate
    requires name in expected && name in fs.tree && Stamp(fs.tree[name], fs.inodes[fs.tree[name]]) == expected[name]
    requires FsOk(late) && name in late.candidate && StampAt(late, name).ino == expected[name].ino
    ensures Tracks(late, Relinked(expected, expected[name].ino, StampAt(late, name)), true)
  {
    WindowMoves(fs, mid, late, name);
    var p :| p in expected && Departed(fs, expected, p);
    assert Departed(late, Relinked(expected, expected[name].ino, StampAt(late, name)), p);
  }

  /** Any other change in the window that passes the comparison leaves a departed entry. */
  lemma VisibleChangeTaints(fs: Fs, mid: Fs, late: Fs, expected: Snapshot, name: Path)
    requires Tracks(fs, expected, false) && Window(fs, mid, late, name) && name !in fs.candidate
    requires name in expected && expected[name].inode.kind.File? && FsOk(late) && name in late.candidate
    requires LinkedAsExpected(expected[name], StampAt(late, name)) && !Covered(fs, late, name)
    ensures Tracks(late, Relinked(expected, expected[name].ino, StampAt(late, name)), true)
  {
    var ino := expected[name].ino;
    WindowMoves(fs, mid, late, name);
    assert SnapshotOf(fs) == expected && name in SnapshotOf(fs);
    var p := MovedInWindow(fs, mid, late, name);
    assert p in SnapshotOf(fs) && Departed(late, Relinked(expected, ino, StampAt(late, name)), p);
  }

  /** If the names changed, or another file, then an entry other than the file's is gone or has
      a new change time: for a name it is the directory it was in. */
  lemma MovedInWindow(fs: Fs, mid: Fs, late: Fs, name: Path) returns (p: Path)
    requires FsOk(fs) && Window(fs, mid, late, name) && FsOk(late) && name in fs.tree && name !in fs.candidate
    requires late.candidate == fs.candidate[name := fs.tree[name]]
    requires fs.inodes[fs.tree[name]].kind.File? && late.inodes[late.candidate[name]].kind.File?
    requires late.tree != fs.tree || exists q :: q in fs.tree && fs.tree[q] != fs.tree[name] && late.inodes[fs.tree[q]] != fs.inodes[fs.tree[q]]
    ensures p in fs.tree && fs.tree[p] != fs.tree[name] && Renewed(fs, late, fs.tree[p])
  {
    WindowMoves(fs, mid, late, name);
    assert late.candidate[name] == mid.tree[name] == fs.tree[name];
    if mid.tree != fs.tree {
      p :| p in fs.tree && fs.inodes[fs.tree[p]].kind.Directory? && Renewed(fs, mid, fs.tree[p]);
      StaysRenewed(fs, mid, late, name, fs.tree[p]);
    } else if late.tree != mid.tree {
      var linked := Link(mid, name);
      assert linked.inodes[fs.tree[name]].kind.File?;
      p :| p in linked.tree && linked.inodes[linked.tree[p]].kind.Directory? && Renewed(linked, late, linked.tree[p]);
    } else {
      p :| p in fs.tree && fs.tree[p] != fs.tree[name] && late.inodes[fs.tree[p]] != fs.inodes[fs.tree[p]];
    }
  }

  lemma StaysRenewed(fs: Fs, mid: Fs, late: Fs, name: Path, ino: nat)
    requires FsOk(fs) && Window(fs, mid, late, name) && Renewed(fs, mid, ino)
    ensures Renewed(fs, late, ino)
  {
  }

  /** Names of the candidate keep their inodes, and inodes their kind. */
  ghost predicate CandidateKept(fs: Fs, next: Fs)
    requires FsOk(fs) && FsOk(next)
  {
    forall p :: p in fs.candidate ==>
      p in next.candidate && next.candidate[p] == fs.candidate[p]
      && next.inodes[fs.candidate[p]].kind == fs.inodes[fs.candidate[p]].kind
  }

  lemma SourceUnchanged(fs: Fs, expected: Snapshot, name: Path)
    requires Tracks(fs, expected, false) && name in expected
    ensures name in fs.tree && Stamp(fs.tree[name], fs.inodes[fs.tree[name]]) == expected[name]
  {
    assert name in SnapshotOf(fs);
  }

  /** The checks around a link passed, whatever other programs did in its window: the
      prediction still tracks the tree. */
  lemma LinkTracks(fs: Fs, mid: Fs, late: Fs, expected: Snapshot, visible: bool, name: Path)
    requires Tracks(fs, expected, visible) && Window(fs, mid, late, name) && name !in fs.candidate
    requires name in expected && expected[name].inode.kind.File?
    requires name in fs.tree && Stamp(fs.tree[name], fs.inodes[fs.tree[name]]) == expected[name]
    ensures FsOk(late) && CandidateKept(fs, late) && late.candidate == fs.candidate[name := mid.tree[name]]
    ensures !visible && Covered(fs, late, name) ==> LinkedAsExpected(expected[name], StampAt(late, name))
    ensures LinkedAsExpected(expected[name], StampAt(late, name)) ==>
              Tracks(late, Relinked(expected, expected[name].ino, StampAt(late, name)), visible || !Covered(fs, late, name))
  {
    hide Foreign, Aliased, Older, Tainted, Covered, Relinked, CandidateKept;
    WindowMoves(fs, mid, late, name);
    if visible {
      if LinkedAsExpected(expected[name], StampAt(late, name)) { LinkKeepsTaint(fs, mid, late, expected, name); }
    } else if Covered(fs, late, name) {
      HiddenChangeTracks(fs, mid, late, expected, name);
    } else if LinkedAsExpected(expected[name], StampAt(late, name)) {
      VisibleChangeTaints(fs, mid, late, expected, name);
    }
  }

  // ----- Carrying the files -----

  /** What happened to the file system: a change by another program; the link of a file with
      its window, in which the link was made from state `mid`; or a new directory or symbolic
      link in the candidate. */
  datatype What = Other | Linked(name: Path, mid: Fs) | Made(name: Path, kind: Kind)

  datatype Event = Event(before: Fs, after: Fs, what: What)

  ghost predicate Legit(e: Event) {
    FsOk(e.before) && FsOk(e.after) &&
    match e.what
    case Other => Foreign(e.before, e.after)
    case Linked(name, mid) => Window(e.before, mid, e.after, name)
    case Made(name, kind) => e.after == Create(e.before, name, kind)
  }

  /** The events lead from one state to the other. */
  ghost predicate Chain(from: Fs, events: seq<Event>, to: Fs) {
    if events == [] then from == to
    else
      var e := events[|events| - 1];
      Legit(e) && e.after == to && Chain(from, events[..|events| - 1], e.before)
  }

  /** A change by another program that no link covers. */
  ghost predicate Visible(e: Event) {
    match e.what
    case Other => true
    case Linked(name, _) => !(FsOk(e.before) && FsOk(e.after) && Covered(e.before, e.after, name))
    case Made(_, _) => false
  }

  ghost predicate AnyVisible(events: seq<Event>) { exists e :: e in events && Visible(e) }

  ghost predicate History(from: Fs, events: seq<Event>, to: Fs, visible: bool) {
    Chain(from, events, to) && (visible <==> AnyVisible(events))
  }

  lemma NothingHappened(fs: Fs)
    ensures History(fs, [], fs, false)
  {
  }

  lemma HistoryGrows(from: Fs, events: seq<Event>, visible: bool, e: Event)
    requires History(from, events, e.before, visible) && Legit(e)
    ensures History(from, events + [e], e.after, visible || Visible(e))
  {
    var all := events + [e];
    assert all[..|all| - 1] == events;
    if AnyVisible(events) {
      var v :| v in events && Visible(v);
      assert v in all;
    } else if Visible(e) {
      assert e in all;
    }
  }

  class Disk {
    var fs: Fs
    ghost var history: seq<Event>

    /** What happened since the first `base` events led to `at`; `visible` says whether any of
        it was a visible change by another program. */
    ghost predicate Logged(from: Fs, base: nat, at: Fs, visible: bool)
      reads this`history
    {
      base <= |history| && History(from, history[base..], at, visible)
    }

    /** What other programs may do between two operations of the installer. */
    method Interfere()
      requires FsOk(fs)
      modifies this`fs
      ensures fs == old(fs) || Foreign(old(fs), fs)
    {
      var next: Fs := *;
      var touched: bool := *;
      if touched && Foreign(fs, next) { fs := next; }
    }

    ghost method Record(e: Event, from: Fs, base: nat, visible: bool)
      requires Logged(from, base, e.before, visible) && Legit(e)
      modifies this`history
      ensures history == old(history) + [e] && Logged(from, base, e.after, visible || Visible(e))
    {
      HistoryGrows(from, history[base..], visible, e);
      assert (history + [e])[base..] == history[base..] + [e];
      history := history + [e];
    }
  }

  /** `os.link` of one user file with its checks.  It fails only after a visible change. */
  method LinkUserFile(disk: Disk, name: Path, expected: Snapshot, ghost visible: bool, ghost from: Fs, ghost base: nat)
    returns (ok: bool, relinked: Snapshot, ghost seen: bool)
    requires Tracks(disk.fs, expected, visible) && name in expected && expected[name].inode.kind.File?
    requires name !in disk.fs.candidate && IsDirectory(disk.fs, ParentOf(name))
    requires disk.Logged(from, base, disk.fs, visible)
    modifies disk
    ensures FsOk(disk.fs) && (visible ==> seen) && (!ok ==> seen)
    ensures old(disk.history) <= disk.history && disk.Logged(from, base, disk.fs, seen)
    ensures ok ==> Tracks(disk.fs, relinked, seen) && CandidateKept(old(disk.fs), disk.fs)
                   && disk.fs.candidate == old(disk.fs.candidate)[name := expected[name].ino]
    ensures ok ==> exists linked ::
                     LinkedAsExpected(expected[name], linked) && relinked == Relinked(expected, expected[name].ino, linked)
  {
    hide Chain, AnyVisible, Covered, Aliased, Older, Tainted, Relinked, ParentOf, IsDirectory, CandidateKept;
    ok, relinked, seen := false, expected, visible;
    ghost var fs := disk.fs;
    if !visible { SourceUnchanged(fs, expected, name); }
    if name !in disk.fs.tree || Stamp(disk.fs.tree[name], disk.fs.inodes[disk.fs.tree[name]]) != expected[name] {
      return;
    }
    disk.Interfere();
    ghost var mid := disk.fs;
    if name !in disk.fs.tree || disk.fs.inodes[disk.fs.tree[name]].kind.Directory? {
      disk.Record(Event(fs, mid, Other), from, base, visible);
      seen := true;
      return;
    }
    disk.fs := Link(disk.fs, name);
    disk.Interfere();
    LinkTracks(fs, mid, disk.fs, expected, visible, name);
    disk.Record(Event(fs, disk.fs, Linked(name, mid)), from, base, visible);
    seen := visible || !Covered(fs, disk.fs, name);
    var linked := StampAt(disk.fs, name);
    if !LinkedAsExpected(expected[name], linked) { return; }
    ok, relinked := true, Relinked(expected, expected[name].ino, linked);
  }

  /** Everything but the root, the receipt and the files the installer owns. */
  predicate Unowned(p: Path, owned: set<Path>) { p != "" && p != RECEIPT && p !in owned }

  /** A name the new engine already uses; a directory may be shared with a directory. */
  predicate Conflict(fs: Fs, snapshot: Snapshot, owned: set<Path>, p: Path)
    requires p in snapshot
  {
    Unowned(p, owned) && p in fs.candidate && !(snapshot[p].inode.kind.Directory? && IsDirectory(fs, p))
  }

  /** Only files are owned, and every name lies in a directory of the snapshot. */
  ghost predicate TreeShaped(snapshot: Snapshot, owned: set<Path>) {
    && (forall p :: p in snapshot && !Unowned(p, owned) && p != "" ==> !snapshot[p].inode.kind.Directory?)
    && (forall p :: p in snapshot && p != "" ==> ParentOf(p) in snapshot && snapshot[ParentOf(p)].inode.kind.Directory?)
  }

  /** The candidate holds its own names and the user's among `done`: a regular file under its
      old inode, a symbolic link with its old text, a directory as a directory. */
  ghost predicate Carried(before: Fs, fs: Fs, snapshot: Snapshot, owned: set<Path>, done: seq<Path>)
    requires FsOk(before) && FsOk(fs)
  {
    && CandidateKept(before, fs)
    && (forall p :: p in fs.candidate ==> p in before.candidate || (p in done && Unowned(p, owned)))
    && (forall p :: p in done && p in snapshot && Unowned(p, owned) ==>
          && p in fs.candidate && !Conflict(before, snapshot, owned, p)
          && (if snapshot[p].inode.kind.File? then fs.candidate[p] == snapshot[p].ino
              else fs.inodes[fs.candidate[p]].kind == snapshot[p].inode.kind))
  }

  /** How many of the names carried so far link to the inode. */
  function LinksMade(done: seq<Path>, snapshot: Snapshot, owned: set<Path>, ino: nat): nat {
    if done == [] then 0
    else
      var p := done[|done| - 1];
      LinksMade(done[..|done| - 1], snapshot, owned, ino)
      + if p in snapshot && Unowned(p, owned) && snapshot[p].inode.kind.File? && snapshot[p].ino == ino then 1 else 0
  }

  /** The prediction differs from the first snapshot only by the links made: identity,
      kind and contents are the same, and the link count of each inode has grown by the
      number of names carried for it. */
  ghost predicate Predicted(expected: Snapshot, snapshot: Snapshot, owned: set<Path>, done: seq<Path>) {
    && expected.Keys == snapshot.Keys
    && forall p :: p in snapshot ==>
         && expected[p].ino == snapshot[p].ino && expected[p].inode.kind == snapshot[p].inode.kind
         && expected[p].inode.attributes == snapshot[p].inode.attributes
         && expected[p].inode.links == snapshot[p].inode.links + LinksMade(done, snapshot, owned, snapshot[p].ino)
  }

  lemma LinkPredicted(expected: Snapshot, snapshot: Snapshot, owned: set<Path>, done: seq<Path>, name: Path, linked: Stamp)
    requires Predicted(expected, snapshot, owned, done) && Aliased(expected)
    requires name in snapshot && Unowned(name, owned) && snapshot[name].inode.kind.File?
    requires LinkedAsExpected(expected[name], linked)
    ensures Predicted(Relinked(expected, expected[name].ino, linked), snapshot, owned, done + [name])
  {
    assert (done + [name])[..|done|] == done;
  }

  lemma OtherPredicted(expected: Snapshot, snapshot: Snapshot, owned: set<Path>, done: seq<Path>, name: Path)
    requires Predicted(expected, snapshot, owned, done)
    requires name in snapshot ==> !Unowned(name, owned) || !snapshot[name].inode.kind.File?
    ensures Predicted(expected, snapshot, owned, done + [name])
  {
    assert (done + [name])[..|done|] == done;
  }

  datatype Outcome = Kept(expected: Snapshot, preserved: seq<Path>) | Rejected

  /** The carried names that are not directories, in order. */
  function Preserved(done: seq<Path>, snapshot: Snapshot, owned: set<Path>): seq<Path> {
    if done == [] then []
    else
      var p := done[|done| - 1];
      Preserved(done[..|done| - 1], snapshot, owned)
      + if p in snapshot && Unowned(p, owned) && !snapshot[p].inode.kind.Directory? then [p] else []
  }

  /** The candidate and the prediction after the names in `done`. */
  ghost predicate Working(before: Fs, fs: Fs, snapshot: Snapshot, owned: set<Path>, done: seq<Path>,
                          expected: Snapshot, visible: bool)
  {
    && FsOk(before) && Tracks(fs, expected, visible)
    && Predicted(expected, snapshot, owned, done) && Carried(before, fs, snapshot, owned, done)
  }

  lemma WorkForeign(before: Fs, fs: Fs, next: Fs, snapshot: Snapshot, owned: set<Path>, done: seq<Path>,
                    expected: Snapshot, visible: bool)
    requires Working(before, fs, snapshot, owned, done, expected, visible) && Foreign(fs, next)
    ensures Working(before, next, snapshot, owned, done, expected, true)
  {
    ForeignTaints(fs, next, expected, visible);
  }

  lemma WorkStarts(fs: Fs, owned: set<Path>)
    requires FsOk(fs)
    ensures Working(fs, fs, SnapshotOf(fs), owned, [], SnapshotOf(fs), false)
    ensures Preserved([], SnapshotOf(fs), owned) == []
  {
    SnapshotTracks(fs);
  }

  /** The last comparison fails exactly after a visible change. */
  lemma WorkCompared(before: Fs, fs: Fs, snapshot: Snapshot, owned: set<Path>, done: seq<Path>, expected: Snapshot, visible: bool)
    requires Working(before, fs, snapshot, owned, done, expected, visible)
    ensures FsOk(fs) && FsOk(before) && Predicted(expected, snapshot, owned, done) && Carried(before, fs, snapshot, owned, done)
    ensures SnapshotOf(fs) == expected <==> !visible
  {
    if visible { TaintedNeverMatches(fs, expected); }
  }

  /** A name the installer owns, or a directory both trees have. */
  lemma WorkNothing(before: Fs, fs: Fs, snapshot: Snapshot, owned: set<Path>, done: seq<Path>,
                    expected: Snapshot, visible: bool, name: Path)
    requires Working(before, fs, snapshot, owned, done, expected, visible) && name in snapshot && name !in done
    requires !Unowned(name, owned) || (snapshot[name].inode.kind.Directory? && IsDirectory(fs, name))
    ensures Working(before, fs, snapshot, owned, done + [name], expected, visible)
  {
    OtherPredicted(expected, snapshot, owned, done, name);
  }

  lemma WorkCreate(before: Fs, fs: Fs, snapshot: Snapshot, owned: set<Path>, done: seq<Path>,
                   expected: Snapshot, visible: bool, name: Path)
    requires Working(before, fs, snapshot, owned, done, expected, visible) && name in snapshot && name !in fs.candidate
    requires Unowned(name, owned) && !snapshot[name].inode.kind.File?
    ensures Working(before, Create(fs, name, snapshot[name].inode.kind), snapshot, owned, done + [name], expected, visible)
  {
    CreateTracks(fs, expected, visible, name, snapshot[name].inode.kind);
    OtherPredicted(expected, snapshot, owned, done, name);
  }

  lemma WorkLink(before: Fs, fs: Fs, next: Fs, snapshot: Snapshot, owned: set<Path>, done: seq<Path>,
                 expected: Snapshot, name: Path, linked: Stamp, seen: bool)
    requires FsOk(before) && FsOk(fs) && Aliased(expected) && name in snapshot && name !in fs.candidate
    requires Predicted(expected, snapshot, owned, done) && Carried(before, fs, snapshot, owned, done)
    requires Unowned(name, owned) && snapshot[name].inode.kind.File? && LinkedAsExpected(expected[name], linked)
    requires Tracks(next, Relinked(expected, expected[name].ino, linked), seen) && CandidateKept(fs, next)
    requires next.candidate == fs.candidate[name := expected[name].ino]
    ensures Working(before, next, snapshot, owned, done + [name], Relinked(expected, expected[name].ino, linked), seen)
  {
    LinkPredicted(expected, snapshot, owned, done, name, linked);
  }

  lemma WorkIsOk(before: Fs, fs: Fs, snapshot: Snapshot, owned: set<Path>, done: seq<Path>, expected: Snapshot, visible: bool)
    requires Working(before, fs, snapshot, owned, done, expected, visible)
    ensures FsOk(before) && FsOk(fs) && expected.Keys == snapshot.Keys
    ensures !visible ==> forall p :: p in snapshot ==> p in fs.tree && Stamp(fs.tree[p], fs.inodes[fs.tree[p]]) == expected[p]
  {
    if !visible {
      forall p | p in snapshot ensures p in fs.tree && Stamp(fs.tree[p], fs.inodes[fs.tree[p]]) == expected[p] {
        SourceUnchanged(fs, expected, p);
      }
    }
  }

  /** A name in the candidate that cannot be used there was in the way from the start. */
  lemma InTheWay(before: Fs, fs: Fs, snapshot: Snapshot, owned: set<Path>, done: seq<Path>, expected: Snapshot, visible: bool, name: Path)
    requires Working(before, fs, snapshot, owned, done, expected, visible)
    requires name in snapshot && name !in done && Conflict(fs, snapshot, owned, name)
    ensures Conflict(before, snapshot, owned, name)
  {
  }

  /** The directory a name goes into is already there. */
  lemma ParentIsReady(before: Fs, fs: Fs, snapshot: Snapshot, owned: set<Path>, order: seq<Path>, expected: Snapshot, visible: bool, k: nat)
    requires IsDirectory(before, "") && TreeShaped(snapshot, owned)
    requires SortedNames(order, snapshot) && k < |order| && order[k] != ""
    requires Working(before, fs, snapshot, owned, order[..k], expected, visible)
    ensures IsDirectory(fs, ParentOf(order[k]))
  {
    assert order[k] in order;
    ParentComesFirst(order, snapshot, k);
  }

  lemma NamesOnce(order: seq<Path>, snapshot: Snapshot, k: nat)
    requires SortedNames(order, snapshot) && k < |order|
    ensures order[k] !in order[..k] && order[k] in snapshot && order[..k + 1] == order[..k] + [order[k]]
  {
    LessIrreflexive(order[k]);
    assert order[k] in order;
  }

  /** A regular file. */
  method CarryFile(disk: Disk, ghost before: Fs, name: Path, ghost done: seq<Path>, ghost owned: set<Path>,
                   ghost snapshot: Snapshot, expected: Snapshot, ghost visible: bool, ghost base: nat)
    returns (ok: bool, relinked: Snapshot, ghost seen: bool)
    requires Working(before, disk.fs, snapshot, owned, done, expected, visible)
    requires disk.Logged(before, base, disk.fs, visible)
    requires name in snapshot && name !in done && Unowned(name, owned) && snapshot[name].inode.kind.File?
    requires IsDirectory(disk.fs, ParentOf(name))
    modifies disk
    ensures FsOk(disk.fs) && (visible ==> seen)
    ensures old(disk.history) <= disk.history && disk.Logged(before, base, disk.fs, seen)
    ensures !ok ==> seen || Conflict(before, snapshot, owned, name)
    ensures ok ==> Working(before, disk.fs, snapshot, owned, done + [name], relinked, seen)
  {
    hide Chain, AnyVisible, Visible;
    ok, relinked, seen := false, expected, visible;
    if name in disk.fs.candidate {
      InTheWay(before, disk.fs, snapshot, owned, done, expected, visible, name);
      return;
    }
    ghost var fs := disk.fs;
    ok, relinked, seen := LinkUserFile(disk, name, expected, visible, before, base);
    if ok {
      ghost var linked :| LinkedAsExpected(expected[name], linked) && relinked == Relinked(expected, expected[name].ino, linked);
      WorkLink(before, fs, disk.fs, snapshot, owned, done, expected, name, linked, seen);
    }
  }

  /** A directory or a symbolic link, made anew. */
  method CarryOther(disk: Disk, ghost before: Fs, name: Path, kind: Kind, ghost done: seq<Path>, ghost owned: set<Path>,
                    ghost snapshot: Snapshot, expected: Snapshot, ghost visible: bool, ghost base: nat)
    returns (ok: bool)
    requires Working(before, disk.fs, snapshot, owned, done, expected, visible)
    requires disk.Logged(before, base, disk.fs, visible)
    requires name in snapshot && name !in done && Unowned(name, owned) && snapshot[name].inode.kind == kind && !kind.File?
    requires IsDirectory(disk.fs, ParentOf(name))
    modifies disk
    ensures FsOk(disk.fs)
    ensures old(disk.history) <= disk.history && disk.Logged(before, base, disk.fs, visible)
    ensures !ok ==> visible || Conflict(before, snapshot, owned, name)
    ensures ok ==> Working(before, disk.fs, snapshot, owned, done + [name], expected, visible)
  {
    hide Chain, AnyVisible, Disk.Logged, Working;
    ok := false;
    WorkIsOk(before, disk.fs, snapshot, owned, done, expected, visible);
    if name in disk.fs.candidate {
      if kind.Directory? && IsDirectory(disk.fs, name) {
        WorkNothing(before, disk.fs, snapshot, owned, done, expected, visible, name);
        return true;
      }
      InTheWay(before, disk.fs, snapshot, owned, done, expected, visible, name);
      return;
    }
    if kind.Symlink? {
      if name !in disk.fs.tree || Stamp(disk.fs.tree[name], disk.fs.inodes[disk.fs.tree[name]]) != expected[name] {
        return;
      }
    }
    WorkCreate(before, disk.fs, snapshot, owned, done, expected, visible, name);
    disk.Record(Event(disk.fs, Create(disk.fs, name, kind), Made(name, kind)), before, base, visible);
    disk.fs := Create(disk.fs, name, kind);
    ok := true;
  }

  /** Carry every unowned path into the candidate.  The history records every step of other
      programs and of the installer, in a chain from the old state to the new one.  The
      update is rejected exactly when the tree does not match the snapshot, a name conflicts,
      or some change by another program is not covered by the window of a link; otherwise
      the prediction is the real snapshot. */
  method PreserveUserFiles(disk: Disk, order: seq<Path>, owned: set<Path>, snapshot: Snapshot)
    returns (out: Outcome)
    requires FsOk(disk.fs) && IsDirectory(disk.fs, "") && SortedNames(order, snapshot) && TreeShaped(snapshot, owned)
    modifies disk
    ensures FsOk(disk.fs) && old(disk.history) <= disk.history
    ensures var events := disk.history[|old(disk.history)|..];
            Chain(old(disk.fs), events, disk.fs)
    ensures out.Kept? <==>
              && old(SnapshotOf(disk.fs)) == snapshot
              && !AnyVisible(disk.history[|old(disk.history)|..])
              && forall p :: p in snapshot ==> !Conflict(old(disk.fs), snapshot, owned, p)
    ensures out.Kept? ==>
              && SnapshotOf(disk.fs) == out.expected && disk.fs.tree == old(disk.fs.tree)
              && Predicted(out.expected, snapshot, owned, order)
              && Carried(old(disk.fs), disk.fs, snapshot, owned, order)
              && out.preserved == Preserved(order, snapshot, owned)
  {
    hide AnyVisible, Carried, Working, Foreign, SortedNames, IsDirectory, Predicted, TreeShaped, Preserved;
    ghost var visible := false;
    ghost var before, base := disk.fs, |disk.history|;
    if SnapshotOf(disk.fs) != snapshot {
      assert disk.history[base..] == [];
      NothingHappened(before);
      return Rejected;
    }
    var expected := snapshot;
    var preserved := [];
    WorkStarts(disk.fs, owned);
    NothingHappened(before);
    assert disk.history[base..] == [];
    assert order[..0] == [];
    for k := 0 to |order|
      invariant Working(before, disk.fs, snapshot, owned, order[..k], expected, visible)
      invariant old(disk.history) <= disk.history && disk.Logged(before, base, disk.fs, visible)
      invariant preserved == Preserved(order[..k], snapshot, owned)
    {
      visible := Interrupted(disk, before, snapshot, owned, order[..k], expected, visible, base);
      var name, ok := order[k], true;
      NamesOnce(order, snapshot, k);
      if !Unowned(name, owned) {
        WorkNothing(before, disk.fs, snapshot, owned, order[..k], expected, visible, name);
      } else {
        ParentIsReady(before, disk.fs, snapshot, owned, order, expected, visible, k);
        if snapshot[name].inode.kind.File? {
          ok, expected, visible := CarryFile(disk, before, name, order[..k], owned, snapshot, expected, visible, base);
        } else {
          ok := CarryOther(disk, before, name, snapshot[name].inode.kind, order[..k], owned, snapshot, expected, visible, base);
        }
      }
      if !ok { return Rejected; }
      PreservedStep(order[..k], name, snapshot, owned);
      if Unowned(name, owned) && !snapshot[name].inode.kind.Directory? { preserved := preserved + [name]; }
    }
    assert order[..|order|] == order;
    visible := Interrupted(disk, before, snapshot, owned, order, expected, visible, base);
    WorkCompared(before, disk.fs, snapshot, owned, order, expected, visible);
    if SnapshotOf(disk.fs) != expected { return Rejected; }
    out := Kept(expected, preserved);
    SameBindings(before, disk.fs, snapshot, expected);
    NothingInTheWay(before, disk.fs, snapshot, owned, order);
  }

  // ----- In plain terms -----

  /** The files an upgrade has to carry: all but the root, the receipt and the owned ones. */
  predicate Users(p: Path, owned: set<Path>) { p != "" && p != ".dstudio-source.json" && p !in owned }

  /** Nobody but the installer acted in this event. */
  predicate Alone(e: Event)
    requires FsOk(e.before)
  {
    match e.what
    case Other => false
    case Linked(name, mid) => mid == e.before && name in mid.tree && e.after == Link(mid, name)
    case Made(_, _) => true
  }

  lemma AloneIsCovered(e: Event)
    requires FsOk(e.before) && Alone(e)
    ensures !Visible(e)
  {
  }

  ghost predicate AllAlone(events: seq<Event>) { forall e :: e in events ==> FsOk(e.before) && Alone(e) }

  lemma NobodyInterferes(events: seq<Event>)
    requires AllAlone(events)
    ensures !AnyVisible(events)
  {
    forall e | e in events ensures !Visible(e) { AloneIsCovered(e); }
  }

  /** The names that stand in the way, in plain terms. */
  lemma FreeNames(fs: Fs, snapshot: Snapshot, owned: set<Path>)
    requires forall p :: p in snapshot && Users(p, owned) ==> p !in fs.candidate
    ensures forall p :: p in snapshot ==> !Conflict(fs, snapshot, owned, p)
  {
  }

  /** The candidate has its own names as before, the receipt among them, and every user's
      name under its old inode or kind, and nothing else. */
  ghost predicate HoldsUsers(before: Fs, fs: Fs, snapshot: Snapshot, owned: set<Path>)
    requires FsOk(before) && FsOk(fs)
  {
    && (forall p :: p in fs.candidate <==> p in before.candidate || (p in snapshot && Users(p, owned)))
    && (forall p :: p in before.candidate ==> fs.candidate[p] == before.candidate[p])
    && (forall p :: p in snapshot && Users(p, owned) && snapshot[p].inode.kind.File? ==> fs.candidate[p] == snapshot[p].ino)
    && (forall p :: p in snapshot && Users(p, owned) && !snapshot[p].inode.kind.File? ==>
          p in fs.candidate && fs.inodes[fs.candidate[p]].kind == snapshot[p].inode.kind)
  }

  ghost predicate NamesUsers(preserved: seq<Path>, snapshot: Snapshot, owned: set<Path>) {
    forall p :: p in preserved <==> p in snapshot && Users(p, owned) && !snapshot[p].inode.kind.Directory?
  }

  /** No user's file or link has a name the candidate uses already. */
  ghost predicate NoneTaken(before: Fs, snapshot: Snapshot, owned: set<Path>) {
    forall p :: p in snapshot && Users(p, owned) && !snapshot[p].inode.kind.Directory? ==> p !in before.candidate
  }

  lemma CarriedNames(before: Fs, fs: Fs, snapshot: Snapshot, owned: set<Path>, order: seq<Path>)
    requires FsOk(before) && FsOk(fs) && SortedNames(order, snapshot) && Carried(before, fs, snapshot, owned, order)
    ensures HoldsUsers(before, fs, snapshot, owned)
  {
  }

  lemma {:induction false} PreservedNames(done: seq<Path>, snapshot: Snapshot, owned: set<Path>, p: Path)
    requires forall q :: q in done ==> q in snapshot
    ensures p in Preserved(done, snapshot, owned) <==> p in done && Users(p, owned) && !snapshot[p].inode.kind.Directory?
  {
    if done != [] {
      var init, last := done[..|done| - 1], done[|done| - 1];
      assert done == init + [last];
      PreservedNames(init, snapshot, owned, p);
    }
  }

  lemma AllPreserved(order: seq<Path>, snapshot: Snapshot, owned: set<Path>)
    requires SortedNames(order, snapshot)
    ensures NamesUsers(Preserved(order, snapshot, owned), snapshot, owned)
  {
    hide Users, Preserved;
    forall p ensures p in Preserved(order, snapshot, owned) <==> p in snapshot && Users(p, owned) && !snapshot[p].inode.kind.Directory? {
      PreservedNames(order, snapshot, owned, p);
    }
  }

  lemma NoConflictNoneTaken(fs: Fs, snapshot: Snapshot, owned: set<Path>)
    requires forall p :: p in snapshot ==> !Conflict(fs, snapshot, owned, p)
    ensures NoneTaken(fs, snapshot, owned)
  {
  }

  /** The merge of an upgrade, in plain terms.  If the tree matches its snapshot, nobody
      interferes and no user's name is taken, it is kept; a kept merge has carried exactly
      the user's names, and none of them was taken. */
  method MergeUserFiles(disk: Disk, order: seq<Path>, owned: set<Path>, snapshot: Snapshot)
    returns (out: Outcome)
    requires FsOk(disk.fs) && IsDirectory(disk.fs, "") && SortedNames(order, snapshot) && TreeShaped(snapshot, owned)
    modifies disk
    ensures FsOk(disk.fs) && old(disk.history) <= disk.history
    ensures (&& old(SnapshotOf(disk.fs)) == snapshot && AllAlone(disk.history[|old(disk.history)|..])
             && forall p :: p in snapshot && Users(p, owned) ==> p !in old(disk.fs.candidate))
            ==> out.Kept?
    ensures out.Kept? ==>
              && disk.fs.tree == old(disk.fs.tree) && NoneTaken(old(disk.fs), snapshot, owned)
              && HoldsUsers(old(disk.fs), disk.fs, snapshot, owned) && NamesUsers(out.preserved, snapshot, owned)
  {
    hide Carried, Conflict, Preserved, Predicted, AnyVisible, AllAlone, Chain, IsDirectory, TreeShaped, Users, HoldsUsers, NamesUsers, NoneTaken, SortedNames;
    ghost var before := disk.fs;
    out := PreserveUserFiles(disk, order, owned, snapshot);
    ghost var events := disk.history[|old(disk.history)|..];
    if AllAlone(events) { NobodyInterferes(events); }
    if forall p :: p in snapshot && Users(p, owned) ==> p !in before.candidate { FreeNames(before, snapshot, owned); }
    if out.Kept? {
      CarriedNames(before, disk.fs, snapshot, owned, order);
      AllPreserved(order, snapshot, owned);
      NoConflictNoneTaken(before, snapshot, owned);
    }
  }

  /** A change of mode and back: only the change time of the inode is new. */
  function Touched(fs: Fs, ino: nat): Fs
    requires FsOk(fs) && ino in fs.inodes
  {
    fs.(inodes := fs.inodes[ino := fs.inodes[ino].(changed := fs.clock)], clock := fs.clock + 1)
  }

  lemma TouchIsForeign(fs: Fs, name: Path)
    requires FsOk(fs) && name in fs.tree
    ensures FsOk(Touched(fs, fs.tree[name])) && Foreign(fs, Touched(fs, fs.tree[name]))
    ensures SnapshotOf(Touched(fs, fs.tree[name])) != SnapshotOf(fs)
  {
    assert Renewed(fs, Touched(fs, fs.tree[name]), fs.tree[name]);
    assert SnapshotOf(Touched(fs, fs.tree[name]))[name] != SnapshotOf(fs)[name];
  }

  /** Not every concurrent change to a recorded stamp is noticed: in every tree and for every
      file of it, a change of mode and back between the stamp check and the link is covered
      by the link, so every check passes and the prediction stays exact. */
  lemma UnnoticedChange(fs: Fs, name: Path)
    requires FsOk(fs) && name in fs.tree && name !in fs.candidate
    ensures var mid := Touched(fs, fs.tree[name]);
            FsOk(mid) && Foreign(fs, mid) && SnapshotOf(mid) != SnapshotOf(fs)
            && Unnoticed(fs, Event(fs, Link(mid, name), Linked(name, mid)), name)
  {
    TouchIsForeign(fs, name);
    var mid := Touched(fs, fs.tree[name]);
    CoveredIsUnnoticed(fs, mid, Link(mid, name), name);
  }

  /** The same between the link and the stamp read after it. */
  lemma UnnoticedLateChange(fs: Fs, name: Path)
    requires FsOk(fs) && name in fs.tree && name !in fs.candidate
    ensures var linked := Link(fs, name);
            var late := Touched(linked, fs.tree[name]);
            FsOk(late) && Foreign(linked, late) && SnapshotOf(late) != SnapshotOf(linked)
            && Unnoticed(fs, Event(fs, late, Linked(name, fs)), name)
  {
    var linked := Link(fs, name);
    TouchIsForeign(linked, name);
    CoveredIsUnnoticed(fs, fs, Touched(linked, fs.tree[name]), name);
  }

  /** The event is possible, is not visible, passes the comparison after the link, and leaves
      exactly the predicted snapshot. */
  ghost predicate Unnoticed(fs: Fs, e: Event, name: Path)
    requires FsOk(fs) && name in fs.tree
  {
    && Legit(e) && !Visible(e) && name in e.after.candidate
    && LinkedAsExpected(SnapshotOf(fs)[name], StampAt(e.after, name))
    && SnapshotOf(e.after) == Relinked(SnapshotOf(fs), fs.tree[name], StampAt(e.after, name))
  }

  lemma CoveredIsUnnoticed(fs: Fs, mid: Fs, late: Fs, name: Path)
    requires FsOk(fs) && name in fs.tree && name !in fs.candidate && Window(fs, mid, late, name)
    requires FsOk(late) && Covered(fs, late, name)
    ensures Unnoticed(fs, Event(fs, late, Linked(name, mid)), name)
  {
    SnapshotTracks(fs);
    WindowMoves(fs, mid, late, name);
    HiddenChangeTracks(fs, mid, late, SnapshotOf(fs), name);
  }

  method Interrupted(disk: Disk, ghost before: Fs, ghost snapshot: Snapshot, ghost owned: set<Path>, ghost done: seq<Path>,
                     ghost expected: Snapshot, ghost visible: bool, ghost base: nat)
    returns (ghost seen: bool)
    requires Working(before, disk.fs, snapshot, owned, done, expected, visible)
    requires disk.Logged(before, base, disk.fs, visible)
    modifies disk
    ensures seen == (visible || disk.fs != old(disk.fs))
    ensures old(disk.history) <= disk.history && disk.Logged(before, base, disk.fs, seen)
    ensures Working(before, disk.fs, snapshot, owned, done, expected, seen)
  {
    hide Chain, AnyVisible, Covered, Foreign;
    ghost var fs := disk.fs;
    disk.Interfere();
    seen := visible || disk.fs != fs;
    if disk.fs != fs {
      WorkForeign(before, fs, disk.fs, snapshot, owned, done, expected, visible);
      disk.Record(Event(fs, disk.fs, Other), before, base, visible);
    }
  }

  lemma PreservedStep(done: seq<Path>, name: Path, snapshot: Snapshot, owned: set<Path>)
    requires name in snapshot
    ensures Preserved(done + [name], snapshot, owned)
            == Preserved(done, snapshot, owned)
               + if Unowned(name, owned) && !snapshot[name].inode.kind.Directory? then [name] else []
  {
    assert (done + [name])[..|done|] == done;
  }

  lemma NothingInTheWay(before: Fs, fs: Fs, snapshot: Snapshot, owned: set<Path>, order: seq<Path>)
    requires FsOk(before) && FsOk(fs) && SortedNames(order, snapshot) && Carried(before, fs, snapshot, owned, order)
    ensures forall p :: p in snapshot ==> !Conflict(before, snapshot, owned, p)
  {
  }

  lemma SameBindings(before: Fs, fs: Fs, snapshot: Snapshot, expected: Snapshot)
    requires FsOk(before) && FsOk(fs) && SnapshotOf(before) == snapshot && SnapshotOf(fs) == expected
    requires expected.Keys == snapshot.Keys && forall p :: p in snapshot ==> expected[p].ino == snapshot[p].ino
    ensures fs.tree == before.tree
  {
    assert forall p :: p in fs.tree <==> p in SnapshotOf(fs);
    assert forall p :: p in before.tree <==> p in SnapshotOf(before);
    assert fs.tree.Keys == before.tree.Keys;
    assert forall p :: p in fs.tree ==> SnapshotOf(fs)[p].ino == fs.tree[p];
    assert forall p :: p in before.tree ==> SnapshotOf(before)[p].ino == before.tree[p];
  }
}
