/** The bounded breadth-first walk over the objects of a bus service.

    Introspection itself is a parameter: it answers with the children of a path,
    or fails. */
module Introspection {
  import opened Common

  const MAX_DEPTH := 3
  const MAX_NODES := 80

  type Path = string
  type Introspect = Path -> Option<seq<string>>

  function ChildPath(path: Path, child: string): Path {
    if path == "/" then "/" + child else path + "/" + child
  }

  function PushUnique<T(==)>(s: seq<T>, x: T): seq<T> {
    if x in s then s else s + [x]
  }

  // ---------------------------------------------------------------- what there is to find

  /** The path of an object named `c` below another one. */
  ghost predicate IsBelow(p: Path, parent: Path, c: string) {
    p == if parent == "/" then "/" + c else parent + "/" + c
  }

  ghost predicate IsChild(introspect: Introspect, parent: Path, p: Path) {
    introspect(parent).Some? && exists c :: c in introspect(parent).value && IsBelow(p, parent, c)
  }

  /** `p` is reached from the root by `n` successfully introspected steps. */
  ghost predicate Reaches(introspect: Introspect, root: Path, p: Path, n: nat)
    decreases n
  {
    if n == 0 then p == root
    else exists q :: Reaches(introspect, root, q, n - 1) && IsChild(introspect, q, p)
  }

  // ---------------------------------------------------------------- the walk

  datatype Found = Found(nodes: seq<Path>, checked: seq<Path>, errors: seq<Path>)

  /** Work still queued: shallow before deep, at most two depths at once. */
  ghost predicate Queued(queue: seq<(Path, nat)>) {
    && (forall i, j :: 0 <= i < j < |queue| ==> queue[i].1 <= queue[j].1 <= queue[i].1 + 1)
  }

  /** Everything queued or visited is really there, at most that deep. */
  ghost predicate Sound(introspect: Introspect, root: Path, queue: seq<(Path, nat)>, at: map<Path, nat>) {
    && (forall i :: 0 <= i < |queue| ==> Reaches(introspect, root, queue[i].0, queue[i].1))
    && (forall p :: p in at ==> at[p] <= MAX_DEPTH && Reaches(introspect, root, p, at[p]))
  }

  /** What was visited is no deeper than what is still queued. */
  ghost predicate Shallow(queue: seq<(Path, nat)>, at: map<Path, nat>) {
    forall p, i :: p in at && 0 <= i < |queue| ==> at[p] <= queue[i].1
  }

  /** `p` was visited at depth `d` or above, or is queued at depth `d`. */
  ghost predicate Accounted(queue: seq<(Path, nat)>, at: map<Path, nat>, p: Path, d: nat) {
    (p in at && at[p] <= d) || (p, d) in queue
  }

  /** No child of a visited path above the depth limit has been lost. */
  ghost predicate Complete(introspect: Introspect, queue: seq<(Path, nat)>, at: map<Path, nat>) {
    forall q, p :: q in at && at[q] < MAX_DEPTH && IsChild(introspect, q, p) ==> Accounted(queue, at, p, at[q] + 1)
  }

  ghost predicate Distinct<T>(s: seq<T>) {
    forall i, j :: 0 <= i < j < |s| ==> s[i] != s[j]
  }

  /** The checked paths whose introspection succeeded, in the order of checking. */
  ghost function Successes(introspect: Introspect, checked: seq<Path>): seq<Path> {
    if checked == [] then []
    else
      Successes(introspect, checked[..|checked| - 1])
      + if introspect(checked[|checked| - 1]).Some? then [checked[|checked| - 1]] else []
  }

  function ChildEntries(path: Path, children: seq<string>, depth: nat): seq<(Path, nat)> {
    if children == [] then []
    else ChildEntries(path, children[..|children| - 1], depth) + [(ChildPath(path, children[|children| - 1]), depth)]
  }

  lemma BelowIsChildPath(path: Path, c: string)
    ensures IsBelow(ChildPath(path, c), path, c)
    ensures forall p :: IsBelow(p, path, c) ==> p == ChildPath(path, c)
  {
  }

  lemma {:induction false} ChildEntriesAre(path: Path, children: seq<string>, depth: nat)
    ensures forall e :: e in ChildEntries(path, children, depth) <==>
      e.1 == depth && exists c :: c in children && IsBelow(e.0, path, c)
  {
    if children != [] {
      var front, last := children[..|children| - 1], children[|children| - 1];
      hide IsBelow, ChildPath;
      ChildEntriesAre(path, front, depth);
      BelowIsChildPath(path, last);
      assert forall c :: c in children <==> c in front || c == last;
    }
  }

  /** Nothing is lost when this entry is dropped: it is too deep, or was visited
      no deeper. */
  ghost predicate Settled(at: map<Path, nat>, entry: (Path, nat)) {
    entry.1 > MAX_DEPTH || (entry.0 in at && at[entry.0] <= entry.1)
  }

  lemma DropHead(introspect: Introspect, root: Path, queue: seq<(Path, nat)>, at: map<Path, nat>)
    requires queue != [] && Queued(queue) && Sound(introspect, root, queue, at) && Shallow(queue, at)
    ensures Queued(queue[1..]) && Sound(introspect, root, queue[1..], at) && Shallow(queue[1..], at)
  {
    hide IsChild;
  }

  lemma DropSettled(introspect: Introspect, queue: seq<(Path, nat)>, at: map<Path, nat>)
    requires queue != [] && Complete(introspect, queue, at) && Settled(at, queue[0])
    ensures Complete(introspect, queue[1..], at)
  {
    hide IsChild;
    forall q, p | q in at && at[q] < MAX_DEPTH && IsChild(introspect, q, p)
      ensures Accounted(queue[1..], at, p, at[q] + 1)
    {
      assert Accounted(queue, at, p, at[q] + 1);
      StillAccounted(queue, at, at, p, at[q] + 1);
    }
  }

  lemma StillAccounted(queue: seq<(Path, nat)>, at: map<Path, nat>, at': map<Path, nat>, p: Path, d: nat)
    requires queue != [] && d <= MAX_DEPTH && Accounted(queue, at, p, d) && Settled(at', queue[0])
    requires forall q :: q in at ==> q in at' && at'[q] == at[q]
    ensures Accounted(queue[1..], at', p, d)
  {
    hide IsChild;
    if (p, d) in queue {
      var i :| 0 <= i < |queue| && queue[i] == (p, d);
      assert i > 0 ==> queue[1..][i - 1] == queue[i];
    }
  }

  lemma EntriesAreReached(introspect: Introspect, root: Path, p: Path, d: nat)
    requires introspect(p).Some? && Reaches(introspect, root, p, d)
    ensures forall e :: e in ChildEntries(p, introspect(p).value, d + 1) ==>
      e.1 == d + 1 && Reaches(introspect, root, e.0, e.1)
  {
    hide IsBelow;
    var children := introspect(p).value;
    ChildEntriesAre(p, children, d + 1);
    forall e | e in ChildEntries(p, children, d + 1) ensures e.1 == d + 1 && Reaches(introspect, root, e.0, e.1) {
      assert IsChild(introspect, p, e.0);
    }
  }

  /** One level deeper goes to the end of the queue. */
  lemma QueuedDeeper(queue: seq<(Path, nat)>, entries: seq<(Path, nat)>)
    requires queue != [] && Queued(queue)
    requires forall i :: 0 <= i < |entries| ==> entries[i].1 == queue[0].1 + 1
    ensures Queued(queue[1..] + entries)
    ensures forall i :: 0 <= i < |queue[1..] + entries| ==> queue[0].1 <= (queue[1..] + entries)[i].1
  {
    var all := queue[1..] + entries;
    forall i | 0 <= i < |all| ensures queue[0].1 <= all[i].1 <= queue[0].1 + 1 {
      if i < |queue| - 1 { assert all[i] == queue[i + 1]; }
    }
    forall i, j | 0 <= i < j < |all| ensures all[i].1 <= all[j].1 <= all[i].1 + 1 {
      if j < |queue| - 1 { assert all[i] == queue[i + 1] && all[j] == queue[j + 1]; }
    }
  }

  /** Visiting the head with success queues all its children, one level deeper. */
  lemma VisitWell(introspect: Introspect, root: Path, queue: seq<(Path, nat)>, at: map<Path, nat>)
    requires queue != [] && Queued(queue) && Sound(introspect, root, queue, at) && Shallow(queue, at)
    requires queue[0].1 <= MAX_DEPTH && queue[0].0 !in at && introspect(queue[0].0).Some?
    ensures var (p, d) := queue[0];
      var queue' := queue[1..] + ChildEntries(p, introspect(p).value, d + 1);
      Queued(queue') && Sound(introspect, root, queue', at[p := d]) && Shallow(queue', at[p := d])
  {
    hide IsChild, Queued;
    var (p, d) := queue[0];
    var entries := ChildEntries(p, introspect(p).value, d + 1);
    EntriesAreReached(introspect, root, p, d);
    forall i | 0 <= i < |entries| ensures entries[i].1 == d + 1 && Reaches(introspect, root, entries[i].0, d + 1) {
      assert entries[i] in entries;
    }
    QueuedDeeper(queue, entries);
  }

  lemma VisitWellComplete(introspect: Introspect, queue: seq<(Path, nat)>, at: map<Path, nat>)
    requires queue != [] && Complete(introspect, queue, at)
    requires queue[0].0 !in at && introspect(queue[0].0).Some?
    ensures var (p, d) := queue[0];
      Complete(introspect, queue[1..] + ChildEntries(p, introspect(p).value, d + 1), at[p := d])
  {
    hide IsBelow;
    var (p, d) := queue[0];
    var children := introspect(p).value;
    ChildEntriesAre(p, children, d + 1);
    var entries, at' := ChildEntries(p, children, d + 1), at[p := d];
    var queue' := queue[1..] + entries;
    forall q, x | q in at' && at'[q] < MAX_DEPTH && IsChild(introspect, q, x)
      ensures Accounted(queue', at', x, at'[q] + 1)
    {
      if q == p {
        assert (x, d + 1) in entries;
      } else {
        assert Accounted(queue, at, x, at[q] + 1);
        StillAccounted(queue, at, at', x, at[q] + 1);
      }
    }
  }

  /** Visiting the head without success leads nowhere. */
  lemma VisitBadly(introspect: Introspect, root: Path, queue: seq<(Path, nat)>, at: map<Path, nat>)
    requires queue != [] && Queued(queue) && Sound(introspect, root, queue, at) && Shallow(queue, at)
    requires queue[0].1 <= MAX_DEPTH && queue[0].0 !in at && introspect(queue[0].0).None?
    ensures var at' := at[queue[0].0 := queue[0].1];
      Queued(queue[1..]) && Sound(introspect, root, queue[1..], at') && Shallow(queue[1..], at')
  {
    hide IsChild;
  }

  lemma VisitBadlyComplete(introspect: Introspect, queue: seq<(Path, nat)>, at: map<Path, nat>)
    requires queue != [] && Complete(introspect, queue, at)
    requires queue[0].0 !in at && introspect(queue[0].0).None?
    ensures Complete(introspect, queue[1..], at[queue[0].0 := queue[0].1])
  {
    hide IsBelow;
    var at' := at[queue[0].0 := queue[0].1];
    forall q, x | q in at' && at'[q] < MAX_DEPTH && IsChild(introspect, q, x)
      ensures Accounted(queue[1..], at', x, at'[q] + 1)
    {
      assert Accounted(queue, at, x, at[q] + 1);
      StillAccounted(queue, at, at', x, at[q] + 1);
    }
  }

  /** When nothing is queued any more, everything within the depth limit was visited. */
  lemma {:induction false} AllVisited(introspect: Introspect, root: Path, at: map<Path, nat>, p: Path, n: nat)
    requires Complete(introspect, [], at) && root in at && at[root] == 0
    requires n <= MAX_DEPTH && Reaches(introspect, root, p, n)
    ensures p in at && at[p] <= n
    decreases n
  {
    hide IsChild;
    if n > 0 {
      var q :| Reaches(introspect, root, q, n - 1) && IsChild(introspect, q, p);
      AllVisited(introspect, root, at, q, n - 1);
      assert Accounted([], at, p, at[q] + 1);
    }
  }

  /** The state of the walk; `full` says that the node budget has run out. */
  ghost predicate Walking(introspect: Introspect, root: Path, queue: seq<(Path, nat)>, at: map<Path, nat>, full: bool) {
    Queued(queue) && Sound(introspect, root, queue, at) && Shallow(queue, at)
    && (!full ==> Complete(introspect, queue, at))
  }

  lemma DropStep(introspect: Introspect, root: Path, queue: seq<(Path, nat)>, at: map<Path, nat>, full: bool)
    requires queue != [] && Walking(introspect, root, queue, at, full) && (full || Settled(at, queue[0]))
    ensures Walking(introspect, root, queue[1..], at, full)
  {
    hide IsChild;
    DropHead(introspect, root, queue, at);
    if !full { DropSettled(introspect, queue, at); }
  }

  lemma VisitStep(introspect: Introspect, root: Path, queue: seq<(Path, nat)>, at: map<Path, nat>,
                  p: Path, d: nat, queue': seq<(Path, nat)>, at': map<Path, nat>, full: bool)
    requires queue != [] && queue[0] == (p, d) && Walking(introspect, root, queue, at, false)
    requires d <= MAX_DEPTH && p !in at
    requires queue' == queue[1..] + Entries(introspect, p, d + 1) && at' == at[p := d]
    ensures Walking(introspect, root, queue', at', full)
  {
    hide IsChild;
    if introspect(p).None? {
      VisitBadly(introspect, root, queue, at);
      VisitBadlyComplete(introspect, queue, at);
      assert queue[1..] + [] == queue[1..];
    } else {
      VisitWell(introspect, root, queue, at);
      VisitWellComplete(introspect, queue, at);
    }
  }

  function Entries(introspect: Introspect, path: Path, depth: nat): seq<(Path, nat)> {
    match introspect(path)
    case None => []
    case Some(children) => ChildEntries(path, children, depth)
  }

  /** What has been found so far. */
  ghost predicate Finding(introspect: Introspect, out: Found, visited: set<Path>) {
    && (forall p :: p in out.checked <==> p in visited)
    && Distinct(out.checked) && |out.nodes| <= MAX_NODES
    && out.nodes == Successes(introspect, out.checked)
    && (forall p :: p in out.errors <==> p in out.checked && introspect(p).None?)
  }

  function Examined(introspect: Introspect, out: Found, path: Path): Found {
    var checked := PushUnique(out.checked, path);
    if introspect(path).None? then Found(out.nodes, checked, PushUnique(out.errors, path))
    else Found(out.nodes + [path], checked, out.errors)
  }

  lemma FindingStep(introspect: Introspect, out: Found, visited: set<Path>, path: Path)
    requires Finding(introspect, out, visited) && path !in visited && |out.nodes| < MAX_NODES
    ensures Finding(introspect, Examined(introspect, out, path), visited + {path})
  {
    var checked := PushUnique(out.checked, path);
    assert checked == out.checked + [path] && checked[..|checked| - 1] == out.checked;
  }

  /** Introspects one path; `calls` lists the paths introspected so far. */
  method Examine(introspect: Introspect, found: Found, path: Path, depth: nat, ghost calls: seq<Path>)
    returns (out: Found, entries: seq<(Path, nat)>, ghost calls': seq<Path>)
    ensures out == Examined(introspect, found, path) && entries == Entries(introspect, path, depth + 1)
    ensures calls' == calls + [path]
  {
    out, entries := found, [];
    out := out.(checked := PushUnique(out.checked, path));
    var answer := introspect(path);
    calls' := calls + [path];
    match answer {
      case None =>
        out := out.(errors := PushUnique(out.errors, path));
      case Some(children) =>
        out := out.(nodes := out.nodes + [path]);
        entries := ChildEntries(path, children, depth + 1);
    }
  }

  /** Everything that holds between two steps of the walk. */
  ghost predicate InProgress(introspect: Introspect, root: Path, out: Found, visited: set<Path>,
                             queue: seq<(Path, nat)>, at: map<Path, nat>)
  {
    && Walking(introspect, root, queue, at, |out.nodes| == MAX_NODES)
    && ((queue == [(root, 0)] && at == map[]) || (root in at && at[root] == 0))
    && at.Keys == visited
    && Finding(introspect, out, visited)
  }

  lemma Skip(introspect: Introspect, root: Path, out: Found, visited: set<Path>,
             queue: seq<(Path, nat)>, at: map<Path, nat>)
    requires InProgress(introspect, root, out, visited, queue, at) && queue != []
    requires |out.nodes| >= MAX_NODES || queue[0].1 > MAX_DEPTH || queue[0].0 in visited
    ensures InProgress(introspect, root, out, visited, queue[1..], at)
  {
    hide IsChild;
    DropStep(introspect, root, queue, at, |out.nodes| == MAX_NODES);
  }

  lemma Visit(introspect: Introspect, root: Path, out: Found, visited: set<Path>,
              queue: seq<(Path, nat)>, at: map<Path, nat>, path: Path, depth: nat, entries: seq<(Path, nat)>)
    requires InProgress(introspect, root, out, visited, queue, at) && queue != [] && queue[0] == (path, depth)
    requires |out.nodes| < MAX_NODES && depth <= MAX_DEPTH && path !in visited
    requires entries == Entries(introspect, path, depth + 1)
    ensures InProgress(introspect, root, Examined(introspect, out, path), visited + {path},
                       queue[1..] + entries, at[path := depth])
  {
    hide IsChild, Complete, Sound, Queued, Shallow, Finding;
    FindingStep(introspect, out, visited, path);
    var full := |Examined(introspect, out, path).nodes| == MAX_NODES;
    VisitStep(introspect, root, queue, at, path, depth, queue[1..] + entries, at[path := depth], full);
  }

  /** Walks the objects below `root`.  No path is introspected twice; what is
      introspected is recorded as checked, in this order; everything checked lies
      within the depth limit; the nodes are the checked paths that answered; and unless
      the node budget ran out, everything within the limit was checked. */
  method WalkIntrospection(root: Path, introspect: Introspect) returns (out: Found, ghost calls: seq<Path>)
    ensures Distinct(calls) && calls == out.checked && |out.nodes| <= 80
    ensures out.nodes == Successes(introspect, out.checked)
    ensures forall p :: p in out.errors <==> p in out.checked && introspect(p).None?
    ensures forall p :: p in out.checked ==> WithinLimit(introspect, root, p)
    ensures |out.nodes| < 80 ==> forall p :: WithinLimit(introspect, root, p) ==> p in out.checked
  {
    out := Found([], [], []);
    var visited: set<Path> := {};
    var queue: seq<(Path, nat)> := [(root, 0)];
    ghost var at: map<Path, nat> := map[];
    calls := [];
    while queue != []
      invariant InProgress(introspect, root, out, visited, queue, at) && calls == out.checked
      decreases MAX_NODES - |out.nodes|, |queue|
    {
      var (path, depth) := queue[0];
      ghost var before := queue;
      queue := queue[1..];
      if |out.nodes| >= MAX_NODES || depth > MAX_DEPTH || path in visited {
        Skip(introspect, root, out, visited, before, at);
        continue;
      }
      var found, entries;
      found, entries, calls := Examine(introspect, out, path, depth, calls);
      Visit(introspect, root, out, visited, before, at, path, depth, entries);
      visited, at := visited + {path}, at[path := depth];
      out, queue := found, queue + entries;
    }
    WithinReach(introspect, root, at);
    if |out.nodes| < MAX_NODES { NothingMissed(introspect, root, at); }
  }

  ghost predicate WithinLimit(introspect: Introspect, root: Path, p: Path) {
    exists n: nat :: n <= 3 && Reaches(introspect, root, p, n)
  }

  lemma WithinReach(introspect: Introspect, root: Path, at: map<Path, nat>)
    requires Sound(introspect, root, [], at)
    ensures forall p :: p in at ==> WithinLimit(introspect, root, p)
  {
    hide IsChild;
    forall p | p in at ensures WithinLimit(introspect, root, p) {
      var n := at[p];
      assert n <= MAX_DEPTH && Reaches(introspect, root, p, n);
    }
  }

  lemma NothingMissed(introspect: Introspect, root: Path, at: map<Path, nat>)
    requires Complete(introspect, [], at) && root in at && at[root] == 0
    ensures forall p :: WithinLimit(introspect, root, p) ==> p in at
  {
    hide IsChild;
    forall p | WithinLimit(introspect, root, p) ensures p in at {
      var n: nat :| n <= 3 && Reaches(introspect, root, p, n);
      AllVisited(introspect, root, at, p, n);
    }
  }
}
