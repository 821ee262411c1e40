/**
 The fallback that adds up a repository's file sizes: it lists directories breadth first from a queue of path texts,
 and hands sizes through a bounded set of tasks that finish in any order.
 */
module StorageUsage {
  import opened Basics
  import opened StoragePaths

  /** A listing tree. An unreadable directory is one whose `open_file` fails. */
  datatype Node = File(size: nat) | Directory(children: seq<Child>, readable: bool)

  datatype Child = Child(name: string, node: Node)

  datatype StorageError = Unreadable

  const MAX_CONCURRENT_TASKS: nat := 20

  // ---- The recursive sum ----

  /** What can be read below a node. */
  function Usage(n: Node): nat {
    match n
    case File(size) => size
    case Directory(children, readable) => if readable then UsageOf(children) else 0
  }

  function UsageOf(cs: seq<Child>): nat {
    if cs == [] then 0 else Usage(cs[0].node) + UsageOf(cs[1..])
  }

  /** Everything below a node. */
  function TotalSize(n: Node): nat {
    match n
    case File(size) => size
    case Directory(children, _) => TotalSizeOf(children)
  }

  function TotalSizeOf(cs: seq<Child>): nat {
    if cs == [] then 0 else TotalSize(cs[0].node) + TotalSizeOf(cs[1..])
  }

  /** What lies below the unreadable directories. */
  function OutOfReach(n: Node): nat {
    match n
    case File(_) => 0
    case Directory(children, readable) => if readable then OutOfReachOf(children) else TotalSizeOf(children)
  }

  function OutOfReachOf(cs: seq<Child>): nat {
    if cs == [] then 0 else OutOfReach(cs[0].node) + OutOfReachOf(cs[1..])
  }

  predicate AllReadable(n: Node) {
    n.File? || (n.readable && AllReadableOf(n.children))
  }

  predicate AllReadableOf(cs: seq<Child>) {
    cs == [] || (AllReadable(cs[0].node) && AllReadableOf(cs[1..]))
  }

  /** Only what lies below unreadable directories is missing from the sum, and nothing when all can be read. */
  lemma {:induction false} UsageMissesUnreadable(n: Node)
    ensures Usage(n) + OutOfReach(n) == TotalSize(n)
    ensures AllReadable(n) ==> OutOfReach(n) == 0
    decreases n
  {
    if n.Directory? {
      UsageOfMissesUnreadable(n.children);
    }
  }

  lemma {:induction false} UsageOfMissesUnreadable(cs: seq<Child>)
    ensures UsageOf(cs) + OutOfReachOf(cs) == TotalSizeOf(cs)
    ensures AllReadableOf(cs) ==> OutOfReachOf(cs) == 0
    decreases cs
  {
    if cs != [] {
      UsageMissesUnreadable(cs[0].node);
      UsageOfMissesUnreadable(cs[1..]);
    }
  }

  /** Bounds the work left below a node. */
  function Weight(n: Node): nat {
    if n.File? then 0 else 1 + WeightOf(n.children)
  }

  function WeightOf(cs: seq<Child>): nat {
    if cs == [] then 0 else Weight(cs[0].node) + WeightOf(cs[1..])
  }

  lemma FirstChild(cs: seq<Child>, i: nat)
    requires i < |cs|
    ensures UsageOf(cs[i..]) == Usage(cs[i].node) + UsageOf(cs[i + 1..])
    ensures WeightOf(cs[i..]) == Weight(cs[i].node) + WeightOf(cs[i + 1..])
  {
    assert cs[i..][1..] == cs[i + 1..];
  }

  lemma NothingLeft()
    ensures UsageOf([]) == 0 && WeightOf([]) == 0
  {
  }

  // ---- Opening paths ----

  /** Names are single components, and differ within a directory. */
  ghost predicate Named(n: Node) {
    n.Directory? ==>
      && (forall i, j | 0 <= i < j < |n.children| :: n.children[i].name != n.children[j].name)
      && (forall c | c in n.children :: Plain(c.name) && Named(c.node))
  }

  function FindChild(cs: seq<Child>, name: string): Option<Node> {
    if cs == [] then None else if cs[0].name == name then Some(cs[0].node) else FindChild(cs[1..], name)
  }

  function Lookup(n: Node, components: seq<string>): Option<Node>
    decreases |components|
  {
    if components == [] then Some(n)
    else if n.File? then None
    else
      var child := FindChild(n.children, components[0]);
      if child.None? then None else Lookup(child.value, components[1..])
  }

  function OpenFile(root: Node, path: StoragePath): Result<Option<Node>, StorageError> {
    var found := Lookup(root, path.components);
    if found.Some? && found.value.Directory? && !found.value.readable then Err(Unreadable) else Ok(found)
  }

  lemma {:induction false} FindsNamed(cs: seq<Child>, i: nat)
    requires i < |cs| && forall j, k | 0 <= j < k < |cs| :: cs[j].name != cs[k].name
    ensures FindChild(cs, cs[i].name) == Some(cs[i].node)
  {
    if i > 0 {
      assert forall j | 0 <= j < |cs[1..]| :: cs[1..][j] == cs[j + 1];
      assert cs[0].name != cs[i].name;
      FindsNamed(cs[1..], i - 1);
    }
  }

  lemma {:induction false} LookupExtends(n: Node, components: seq<string>, name: string)
    requires Lookup(n, components).Some? && Lookup(n, components).value.Directory?
    ensures Lookup(n, components + [name]) == FindChild(Lookup(n, components).value.children, name)
    decreases |components|
  {
    if components == [] {
      assert [] + [name] == [name] && [name][1..] == [];
      var child := FindChild(n.children, name);
      assert child.Some? ==> Lookup(child.value, []) == child;
    } else {
      assert (components + [name])[1..] == components[1..] + [name];
      LookupExtends(FindChild(n.children, components[0]).value, components[1..], name);
    }
  }

  /** How the queue writes a directory: slashes around and between its components. */
  function Text(components: seq<string>): string {
    "/" + Join(components) + "/"
  }

  lemma TextParses(components: seq<string>)
    requires forall c | c in components :: Plain(c)
    ensures From(Text(components)).components == components
  {
    var p := StoragePath(components, None);
    TextHasComponents(p);
    var t := Join(components) + "/";
    assert Text(components) == "/" + t && Text(components)[1..] == t;
    assert Split(Text(components)) == [""] + Split(t);
    assert ([""] + Split(t))[1..] == Split(t);
  }

  lemma TextExtends(components: seq<string>, name: string)
    requires components != []
    ensures Text(components + [name]) == Text(components) + name + "/"
  {
    JoinConcat(components, [name]);
  }

  // ---- The scan ----

  /** A queued directory: its components, and the node they lead to. */
  datatype Pending = Pending(components: seq<string>, node: Node)

  ghost predicate QueuedRight(root: Node, text: string, p: Pending) {
    && p.components != [] && (forall c | c in p.components :: Plain(c)) && text == Text(p.components)
    && Lookup(root, p.components) == Some(p.node) && p.node.Directory? && Named(p.node)
  }

  ghost function PendingUsage(ps: seq<Pending>): nat {
    if ps == [] then 0 else Usage(ps[0].node) + PendingUsage(ps[1..])
  }

  ghost function PendingWeight(ps: seq<Pending>): nat {
    if ps == [] then 0 else Weight(ps[0].node) + PendingWeight(ps[1..])
  }

  lemma {:induction false} PendingPush(ps: seq<Pending>, p: Pending)
    ensures PendingUsage(ps + [p]) == PendingUsage(ps) + Usage(p.node)
    ensures PendingWeight(ps + [p]) == PendingWeight(ps) + Weight(p.node)
  {
    if ps == [] {
      assert [] + [p] == [p] && [p][1..] == [];
    } else {
      assert (ps + [p])[1..] == ps[1..] + [p];
      PendingPush(ps[1..], p);
    }
  }

  /** A child directory of an open one is queued under the text the scan makes for it. */
  lemma ChildQueuedRight(root: Node, components: seq<string>, node: Node, i: nat)
    requires Lookup(root, components) == Some(node) && node.Directory? && Named(node) && i < |node.children|
    requires node.children[i].node.Directory? && forall c | c in components :: Plain(c)
    ensures var c := node.children[i];
      QueuedRight(root, Text(components + [c.name]), Pending(components + [c.name], c.node))
    ensures components != [] ==> Text(components + [node.children[i].name]) == Text(components) + node.children[i].name + "/"
  {
    var c := node.children[i];
    assert c in node.children;
    FindsNamed(node.children, i);
    LookupExtends(root, components, c.name);
    if components != [] {
      TextExtends(components, c.name);
    }
  }

  /** `exact` is history: the sum without wrapping. */
  class Scan {
    var total: nat
    var tasks: seq<nat>
    var queue: seq<string>
    ghost var exact: nat
    ghost var pending: seq<Pending>

    /** The total wraps at 64 bits; at most 20 tasks are outstanding. */
    ghost predicate Valid(root: Node)
      reads this
    {
      && total == exact % TWO_64 && |tasks| <= MAX_CONCURRENT_TASKS && |queue| == |pending|
      && forall i | 0 <= i < |queue| :: QueuedRight(root, queue[i], pending[i])
    }

    /** Everything counted, in flight, or queued. */
    ghost function Covered(): nat
      reads this
    {
      exact + Sum(tasks) + PendingUsage(pending)
    }

    constructor (ghost root: Node)
      ensures Valid(root) && Covered() == 0 && pending == [] && tasks == []
    {
      total, tasks, queue, exact, pending := 0, [], [], 0, [];
    }

    /** Awaits every task, in whatever order they finish. */
    method Drain(ghost root: Node)
      requires Valid(root)
      modifies this`total, this`tasks, this`exact
      ensures Valid(root) && tasks == [] && exact == old(exact) + Sum(old(tasks))
    {
      while tasks != []
        invariant Valid(root) && exact + Sum(tasks) == old(exact) + Sum(old(tasks))
        decreases |tasks|
      {
        var i :| 0 <= i < |tasks|;
        var size := tasks[i];
        Picked(tasks, i);
        WrappingAdd(exact, size);
        tasks := tasks[..i] + tasks[i + 1..];
        exact := exact + size;
        total := (total + size) % TWO_64;
      }
    }

    method Spawn(ghost root: Node, size: nat)
      requires Valid(root)
      modifies this`total, this`tasks, this`exact
      ensures Valid(root) && exact + Sum(tasks) == old(exact + Sum(tasks)) + size
    {
      if |tasks| >= MAX_CONCURRENT_TASKS {
        Drain(root);
      }
      SumConcat(tasks, [size]);
      assert Sum([size]) == size + Sum([]) by { assert [size][1..] == []; }
      tasks := tasks + [size];
    }

    method Enqueue(ghost root: Node, path: string, ghost p: Pending)
      requires Valid(root) && QueuedRight(root, path, p)
      modifies this`queue, this`pending
      ensures Valid(root) && pending == old(pending) + [p]
      ensures Covered() == old(Covered()) + Usage(p.node)
    {
      PendingPush(pending, p);
      queue, pending := queue + [path], pending + [p];
    }

    /** The listing of one directory: sizes go to tasks, directories to the queue. */
    method List(root: Node, path: string, ghost components: seq<string>, node: Node)
      requires Valid(root) && node.Directory? && Named(node)
      requires Lookup(root, components) == Some(node) && (forall c | c in components :: Plain(c))
      requires components != [] && path == Text(components)
      modifies this
      ensures Valid(root) && Covered() == old(Covered()) + UsageOf(node.children)
      ensures PendingWeight(pending) == old(PendingWeight(pending)) + WeightOf(node.children)
    {
      var i := 0;
      NothingLeft();
      hide UsageOf;
      hide WeightOf;
      while i < |node.children|
        invariant 0 <= i <= |node.children| && Valid(root)
        invariant Covered() + UsageOf(node.children[i..]) == old(Covered()) + UsageOf(node.children)
        invariant PendingWeight(pending) + WeightOf(node.children[i..]) == old(PendingWeight(pending)) + WeightOf(node.children)
      {
        var c := node.children[i];
        FirstChild(node.children, i);
        match c.node {
          case File(size) =>
            Spawn(root, size);
          case Directory(_, _) =>
            ChildQueuedRight(root, components, node, i);
            PendingPush(pending, Pending(components + [c.name], c.node));
            Enqueue(root, path + c.name + "/", Pending(components + [c.name], c.node));
        }
        i := i + 1;
      }
      assert node.children[i..] == [];
    }

    /** The first listing: a pass for the directories, then one for the files. */
    method ListRoot(root: Node)
      requires Valid(root) && root.Directory? && Named(root) && pending == [] && Covered() == 0
      modifies this
      ensures Valid(root) && Covered() == UsageOf(root.children)
    {
      var i := 0;
      DirectoriesAndFiles(root.children);
      while i < |root.children|
        invariant 0 <= i <= |root.children| && Valid(root)
        invariant Covered() + DirectoryUsage(root.children[i..]) == DirectoryUsage(root.children)
      {
        var c := root.children[i];
        assert root.children[i..][1..] == root.children[i + 1..];
        if c.node.Directory? {
          ChildQueuedRight(root, [], root, i);
          assert [] + [c.name] == [c.name];
          assert Text([c.name]) == "/" + c.name + "/";
          Enqueue(root, "/" + c.name + "/", Pending([c.name], c.node));
        }
        i := i + 1;
      }
      i := 0;
      while i < |root.children|
        invariant 0 <= i <= |root.children| && Valid(root)
        invariant Covered() + FileUsage(root.children[i..]) == UsageOf(root.children)
      {
        assert root.children[i..][1..] == root.children[i + 1..];
        if root.children[i].node.File? {
          Spawn(root, root.children[i].node.size);
        }
        i := i + 1;
      }
    }

    method Finish(root: Node)
      requires Valid(root)
      modifies this
      ensures Valid(root) && tasks == [] && pending == []
      ensures exact == old(Covered())
    {
      while queue != []
        invariant Valid(root) && Covered() == old(Covered())
        decreases PendingWeight(pending)
      {
        var path := queue[0];
        ghost var p := pending[0];
        assert QueuedRight(root, path, p);
        queue, pending := queue[1..], pending[1..];
        TextParses(p.components);
        var entry := OpenFile(root, From(path));
        if entry.Ok? && entry.value.Some? && entry.value.value.Directory? {
          List(root, path, p.components, entry.value.value);
        }
      }
      Drain(root);
    }
  }

  function DirectoryUsage(cs: seq<Child>): nat {
    if cs == [] then 0 else (if cs[0].node.Directory? then Usage(cs[0].node) else 0) + DirectoryUsage(cs[1..])
  }

  function FileUsage(cs: seq<Child>): nat {
    if cs == [] then 0 else (if cs[0].node.File? then Usage(cs[0].node) else 0) + FileUsage(cs[1..])
  }

  lemma {:induction false} DirectoriesAndFiles(cs: seq<Child>)
    ensures DirectoryUsage(cs) + FileUsage(cs) == UsageOf(cs)
  {
    if cs != [] {
      DirectoriesAndFiles(cs[1..]);
    }
  }

  lemma Picked(s: seq<nat>, i: nat)
    requires i < |s|
    ensures Sum(s) == s[i] + Sum(s[..i] + s[i + 1..])
  {
    var a, b := s[..i], s[i + 1..];
    var c := [s[i]] + b;
    assert s == a + c;
    SumConcat(a, c);
    SumConcat(a, b);
    assert c[0] == s[i] && c[1..] == b;
  }

  /**
   The whole fallback. It terminates with the recursive sum of what can be read, as a 64-bit number; with the size
   of all files when everything can be read and fits; with an error exactly when the root cannot be listed.
   */
  method RepositoryStorageUsage(root: Option<Node>) returns (r: Result<nat, StorageError>)
    requires root.Some? ==> Named(root.value)
    ensures r.Err? <==> root.Some? && root.value.Directory? && !root.value.readable
    ensures r.Ok? && root.None? ==> r.value == 0
    ensures r.Ok? && root.Some? && root.value.Directory? ==> r.value == Usage(root.value) % TWO_64
    ensures r.Ok? && root.Some? && root.value.File? ==> r.value == root.value.size
    ensures root.Some? && AllReadable(root.value) && TotalSize(root.value) < TWO_64 ==> r == Ok(TotalSize(root.value))
  {
    if root.None? {
      return Ok(0);
    }
    UsageMissesUnreadable(root.value);
    match root.value
    case File(size) =>
      return Ok(size);
    case Directory(_, readable) =>
      if !readable {
        return Err(Unreadable);
      }
      var scan := new Scan(root.value);
      scan.ListRoot(root.value);
      scan.Finish(root.value);
      return Ok(scan.total);
  }
}
