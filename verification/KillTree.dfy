/** The kill-tree response (agent/internal/respond/kill.go) over a fixed
    snapshot of /proc: the capped breadth-first walk of descendants, the guard
    over the agent's ancestors, and who is signalled in the end. */
module KillTree {
  import opened Wrappers
  import opened Collections

  type Pid = int

  const MAX_DESCENDANTS: int := 1024
  const MAX_HOPS: nat := 256

  /** A word of a children file, after strconv.Atoi. */
  datatype Word = NotANumber | Number(n: int)

  datatype Task = NotADirectory | TaskGone | TaskUnreadable | Children(words: seq<Word>)

  datatype TaskDir = Gone | Unreadable | Tasks(tasks: seq<Task>)

  /** What /proc/<pid>/status says about the parent. */
  datatype Status = NoSuchProcess | BadStatus | Parent(ppid: Pid)

  datatype Proc = Proc(taskDirs: map<Pid, TaskDir>, statuses: map<Pid, Status>)

  datatype WalkError = ReadFailed | TooMany

  function DirOf(proc: Proc, pid: Pid): TaskDir { if pid in proc.taskDirs then proc.taskDirs[pid] else Gone }

  function WordPids(words: seq<Word>): set<Pid> { set w | w in words && w.Number? && w.n > 0 :: w.n }

  function TaskPids(t: Task): set<Pid> { if t.Children? then WordPids(t.words) else {} }

  /** The children listed by any task of `pid`. */
  function ChildrenOf(proc: Proc, pid: Pid): set<Pid> {
    var dir := DirOf(proc, pid);
    if dir.Tasks? then set t, c | t in dir.tasks && c in TaskPids(t) :: c else {}
  }

  predicate IsUnreadable(proc: Proc, pid: Pid) {
    var dir := DirOf(proc, pid);
    dir.Unreadable? || (dir.Tasks? && TaskUnreadable in dir.tasks)
  }

  // ----- reachability -----

  predicate IsPath(proc: Proc, path: seq<Pid>) {
    forall i :: 0 < i < |path| ==> path[i] in ChildrenOf(proc, path[i - 1])
  }

  ghost predicate Reachable(proc: Proc, root: Pid, pid: Pid) {
    exists path :: path != [] && path[0] == root && path[|path| - 1] == pid && IsPath(proc, path)
  }

  function Universe(proc: Proc, root: Pid): set<Pid> {
    {root} + set p, c | p in proc.taskDirs && c in ChildrenOf(proc, p) :: c
  }

  /** The process tree rooted at `root`. */
  ghost function Tree(proc: Proc, root: Pid): set<Pid> {
    set p | p in Universe(proc, root) && Reachable(proc, root, p)
  }

  lemma RootReachable(proc: Proc, root: Pid)
    ensures root in Tree(proc, root)
  {
    var path := [root];
    assert path[0] == root && path[|path| - 1] == root && IsPath(proc, path);
  }

  lemma ChildReachable(proc: Proc, root: Pid, p: Pid, c: Pid)
    requires p in Tree(proc, root) && c in ChildrenOf(proc, p)
    ensures c in Tree(proc, root)
  {
    var path :| path != [] && path[0] == root && path[|path| - 1] == p && IsPath(proc, path);
    var path' := path + [c];
    assert path'[0] == root && path'[|path'| - 1] == c && IsPath(proc, path');
    assert p in proc.taskDirs;
  }

  /** A set that contains the root and its members' children has the whole tree. */
  lemma ClosedHasTree(proc: Proc, root: Pid, s: set<Pid>)
    requires root in s && forall p :: p in s ==> ChildrenOf(proc, p) <= s
    ensures Tree(proc, root) <= s
  {
    forall p | p in Tree(proc, root)
      ensures p in s
    {
      var path :| path != [] && path[0] == root && path[|path| - 1] == p && IsPath(proc, path);
      PathStays(proc, path, s, |path| - 1);
    }
  }

  lemma {:induction false} PathStays(proc: Proc, path: seq<Pid>, s: set<Pid>, i: nat)
    requires i < |path| && path[0] in s && IsPath(proc, path) && forall p :: p in s ==> ChildrenOf(proc, p) <= s
    ensures path[i] in s
  {
    if i > 0 {
      PathStays(proc, path, s, i - 1);
    }
  }

  // ----- the breadth-first walk -----

  lemma {:induction false} DistinctSize(s: seq<Pid>)
    requires Distinct(s)
    ensures |Elements(s)| == |s|
  {
    if s != [] {
      var front := s[..|s| - 1];
      DistinctSize(front);
      assert Elements(s) == Elements(front) + {s[|s| - 1]};
    }
  }

  /** Pid `c` is listed among the children of some task of process `p`. */
  ghost predicate Lists(proc: Proc, p: Pid, c: Pid) {
    && c > 0 && p in proc.taskDirs && proc.taskDirs[p].Tasks?
    && exists t :: t in proc.taskDirs[p].tasks && t.Children? && Number(c) in t.words
  }

  lemma ListsChildren(proc: Proc, p: Pid, c: Pid)
    ensures Lists(proc, p, c) <==> c in ChildrenOf(proc, p)
  {
    if Lists(proc, p, c) {
      var t :| t in proc.taskDirs[p].tasks && t.Children? && Number(c) in t.words;
      assert c in WordPids(t.words) && c in TaskPids(t);
    }
    if c in ChildrenOf(proc, p) {
      var t :| t in proc.taskDirs[p].tasks && c in TaskPids(t);
      var w :| w in t.words && w.Number? && w.n == c && w.n > 0;
      assert Number(c) == w;
    }
  }

  /** The tree is the root, whatever a member lists, and nothing else: every other
      member is listed by one, and so is positive. */
  lemma TreeGrows(proc: Proc, root: Pid, p: Pid, c: Pid)
    ensures root in Tree(proc, root)
    ensures p in Tree(proc, root) && Lists(proc, p, c) ==> c in Tree(proc, root)
    ensures c in Tree(proc, root) && c != root ==> exists q :: q in Tree(proc, root) && Lists(proc, q, c)
  {
    RootReachable(proc, root);
    ListsChildren(proc, p, c);
    if p in Tree(proc, root) && Lists(proc, p, c) {
      ChildReachable(proc, root, p, c);
    }
    if c in Tree(proc, root) && c != root {
      var path :| path != [] && path[0] == root && path[|path| - 1] == c && IsPath(proc, path);
      var front := path[..|path| - 1];
      var q := path[|path| - 2];
      assert IsPath(proc, front) && front[|front| - 1] == q;
      assert path[|path| - 1] in ChildrenOf(proc, q);
      ListsChildren(proc, q, c);
      PathInTree(proc, root, front);
    }
  }

  lemma {:induction false} PathInTree(proc: Proc, root: Pid, path: seq<Pid>)
    requires path != [] && path[0] == root && IsPath(proc, path)
    ensures path[|path| - 1] in Tree(proc, root)
  {
    if |path| == 1 {
      RootReachable(proc, root);
    } else {
      var front := path[..|path| - 1];
      assert IsPath(proc, front);
      PathInTree(proc, root, front);
      ChildReachable(proc, root, front[|front| - 1], path[|path| - 1]);
    }
  }

  /** What cannot be read: a process whose task directory cannot be listed, or one
      of whose tasks has a children file that cannot be read. One that is gone has
      no children and is no error. */
  lemma ReadableMeans(proc: Proc, root: Pid)
    ensures AllReadable(proc, root) <==>
              forall p :: p in Tree(proc, root) && p in proc.taskDirs ==>
                !proc.taskDirs[p].Unreadable? && (proc.taskDirs[p].Tasks? ==> TaskUnreadable !in proc.taskDirs[p].tasks)
  {
    hide Tree;
  }

  /** `out` lists distinct members of the tree, starting with the root. */
  ghost predicate Collected(proc: Proc, root: Pid, out: seq<Pid>, seen: set<Pid>) {
    out != [] && out[0] == root && Distinct(out) && seen == Elements(out) && seen <= Tree(proc, root)
  }

  function CapOf(maxPids: int): nat { if maxPids < 1 then 1 else maxPids }

  /** One children file: appends the pids not seen before, to the result and to
      the queue, until the cap is passed. */
  method ScanWords(proc: Proc, ghost root: Pid, ghost pid: Pid, words: seq<Word>, maxPids: int,
                   out0: seq<Pid>, seen0: set<Pid>, queue0: seq<Pid>)
    returns (out: seq<Pid>, seen: set<Pid>, queue: seq<Pid>, over: bool)
    requires Collected(proc, root, out0, seen0) && |out0| <= CapOf(maxPids)
    requires pid in seen0 && WordPids(words) <= ChildrenOf(proc, pid)
    ensures Collected(proc, root, out, seen) && seen0 <= seen
    ensures |out| - |out0| == |queue| - |queue0| >= 0
    ensures out == out0 + out[|out0|..] && queue == queue0 + out[|out0|..]
    ensures over ==> |out| > CapOf(maxPids)
    ensures !over ==> |out| <= CapOf(maxPids) && WordPids(words) <= seen
  {
    hide Collected, Tree, ChildrenOf;
    out, seen, queue, over := out0, seen0, queue0, false;
    assert out[|out0|..] == [];
    for i := 0 to |words|
      invariant Collected(proc, root, out, seen) && seen0 <= seen && |out0| <= |out| <= CapOf(maxPids)
      invariant out == out0 + out[|out0|..] && queue == queue0 + out[|out0|..]
      invariant WordPids(words[..i]) <= seen
    {
      assert words[..i + 1] == words[..i] + [words[i]];
      WordPush(words[..i], words[i]);
      if words[i].NotANumber? || words[i].n <= 0 {
        continue;
      }
      var c := words[i].n;
      if c in seen {
        continue;
      }
      assert c in WordPids(words) by { assert words[i] in words; }
      InTree(proc, root, out, seen, pid);
      ChildReachable(proc, root, pid, c);
      CollectOne(proc, root, out, seen, c);
      assert (out + [c])[|out0|..] == out[|out0|..] + [c];
      seen := seen + {c};
      out := out + [c];
      queue := queue + [c];
      if |out| > maxPids {
        over := true;
        return;
      }
    }
    assert words[..|words|] == words;
  }

  lemma WordPush(words: seq<Word>, w: Word)
    ensures WordPids(words + [w]) == WordPids(words) + WordPids([w])
    ensures WordPids([w]) == if w.Number? && w.n > 0 then {w.n} else {}
  {
    assert forall x :: x in words + [w] <==> x in words || x == w;
  }

  lemma InTree(proc: Proc, root: Pid, out: seq<Pid>, seen: set<Pid>, p: Pid)
    requires Collected(proc, root, out, seen) && p in seen
    ensures p in Tree(proc, root)
  {
  }

  lemma CollectOne(proc: Proc, root: Pid, out: seq<Pid>, seen: set<Pid>, c: Pid)
    requires Collected(proc, root, out, seen) && c !in seen && c in Tree(proc, root)
    ensures out != [] && Collected(proc, root, out + [c], seen + {c})
  {
    assert forall i :: 0 <= i < |out| ==> out[i] in Elements(out);
    assert Elements(out + [c]) == Elements(out) + {c};
  }

  lemma TaskChildren(proc: Proc, pid: Pid, t: Task)
    requires DirOf(proc, pid).Tasks? && t in DirOf(proc, pid).tasks
    ensures TaskPids(t) <= ChildrenOf(proc, pid)
  {
  }

  /** All task entries of one process. */
  method Visit(proc: Proc, ghost root: Pid, pid: Pid, maxPids: int,
               out0: seq<Pid>, seen0: set<Pid>, queue0: seq<Pid>)
    returns (out: seq<Pid>, seen: set<Pid>, queue: seq<Pid>, err: Option<WalkError>)
    requires Collected(proc, root, out0, seen0) && |out0| <= CapOf(maxPids) && pid in seen0
    ensures Collected(proc, root, out, seen) && seen0 <= seen && |out0| <= |out|
    ensures out == out0 + out[|out0|..] && queue == queue0 + out[|out0|..]
    ensures err.None? ==> |out| <= CapOf(maxPids) && ChildrenOf(proc, pid) <= seen && !IsUnreadable(proc, pid)
    ensures err == Some(TooMany) ==> |out| > CapOf(maxPids)
    ensures err == Some(ReadFailed) ==> IsUnreadable(proc, pid)
  {
    hide Collected, Tree, WordPids, Elements;
    out, seen, queue, err := out0, seen0, queue0, None;
    assert out[|out0|..] == [];
    var dir := DirOf(proc, pid);
    match dir {
      case Gone => return;
      case Unreadable => err := Some(ReadFailed); return;
      case Tasks(tasks) =>
        for i := 0 to |tasks|
          invariant Collected(proc, root, out, seen) && seen0 <= seen && |out0| <= |out| <= CapOf(maxPids)
          invariant out == out0 + out[|out0|..] && queue == queue0 + out[|out0|..]
          invariant forall k :: 0 <= k < i ==> TaskPids(tasks[k]) <= seen && tasks[k] != TaskUnreadable
        {
          var t := tasks[i];
          match t {
            case NotADirectory =>
            case TaskGone =>
            case TaskUnreadable => err := Some(ReadFailed); return;
            case Children(words) =>
              ghost var before := out;
              TaskChildren(proc, pid, t);
              var over;
              out, seen, queue, over := ScanWords(proc, root, pid, words, maxPids, out, seen, queue);
              assert out[|out0|..] == before[|out0|..] + out[|before|..];
              if over {
                err := Some(TooMany);
                return;
              }
          }
        }
    }
  }

  ghost predicate AllReadable(proc: Proc, root: Pid) {
    forall p :: p in Tree(proc, root) ==> !IsUnreadable(proc, p)
  }

  /** The root and all its descendants, once each, if and only if the tree fits
      the cap and every process in it can be read; otherwise one of the two
      errors, for its own reason. */
  method CollectDescendants(proc: Proc, root: Pid, maxPids: int) returns (r: Result<seq<Pid>, WalkError>)
    ensures r.Ok? <==> |Tree(proc, root)| <= (if maxPids < 1 then 1 else maxPids) && AllReadable(proc, root)
    ensures r.Ok? ==> r.value != [] && r.value[0] == root && Distinct(r.value) && Elements(r.value) == Tree(proc, root)
    ensures r == Err(TooMany) ==> |Tree(proc, root)| > CapOf(maxPids)
    ensures r == Err(ReadFailed) ==> !AllReadable(proc, root)
  {
    hide Tree, ChildrenOf, IsUnreadable;
    RootReachable(proc, root);
    var out, seen, queue := [root], {root}, [root];
    ghost var head := 0;
    while |queue| > 0
      invariant Collected(proc, root, out, seen) && |out| <= CapOf(maxPids)
      invariant 0 <= head <= |out| && queue == out[head..]
      invariant forall i :: 0 <= i < head ==> ChildrenOf(proc, out[i]) <= seen && !IsUnreadable(proc, out[i])
      decreases CapOf(maxPids) - head
    {
      var pid := queue[0];
      queue := queue[1..];
      ghost var before, was := out, seen;
      assert pid == out[head] && pid in Elements(out);
      var err;
      out, seen, queue, err := Visit(proc, root, pid, maxPids, out, seen, queue);
      if err.Some? {
        if err.value == TooMany {
          DistinctSize(out);
          SubsetSize(seen, Tree(proc, root));
        }
        return Err(err.value);
      }
      assert forall i :: 0 <= i < head ==> out[i] == before[i];
      head := head + 1;
      assert queue == out[head..];
    }
    assert forall p :: p in seen ==> exists i :: 0 <= i < |out| && out[i] == p;
    assert forall p :: p in seen ==> !IsUnreadable(proc, p);
    ClosedHasTree(proc, root, seen);
    DistinctSize(out);
    assert Elements(out) == Tree(proc, root);
    return Ok(out);
  }

  // ----- the ancestor guard -----

  /** The parent, 0 for a vanished process, or a read failure. */
  function ReadPPID(proc: Proc, pid: Pid): Result<Pid, ()> {
    if pid !in proc.statuses then Ok(0)
    else
      match proc.statuses[pid]
      case NoSuchProcess => Ok(0)
      case BadStatus => Err(())
      case Parent(p) => Ok(p)
  }

  /** A chain of parents: each element's parent is the next one. */
  predicate IsChain(proc: Proc, chain: seq<Pid>) {
    forall i :: 0 < i < |chain| ==> ReadPPID(proc, chain[i - 1]) == Ok(chain[i])
  }

  /** The agent and all its ancestors short of 0 and 1, with the walk ending there. */
  predicate IsAncestry(proc: Proc, agent: Pid, chain: seq<Pid>) {
    && IsChain(proc, chain)
    && (forall i :: 0 <= i < |chain| ==> chain[i] != 0 && chain[i] != 1)
    && (if chain == [] then agent == 0 || agent == 1
        else chain[0] == agent && ReadPPID(proc, chain[|chain| - 1]) in {Ok(0), Ok(1)})
  }

  /** The agent followed by some of its ancestors, short of 0 and 1. */
  predicate IsWalk(proc: Proc, agent: Pid, chain: seq<Pid>) {
    && IsChain(proc, chain) && chain != [] && chain[0] == agent
    && (forall i :: 0 <= i < |chain| ==> chain[i] != 0 && chain[i] != 1)
  }

  /** The whole ancestry can be read within the bound and `pid` is not on it. */
  ghost predicate IsClear(proc: Proc, agent: Pid, pid: Pid) {
    exists chain :: IsAncestry(proc, agent, chain) && |chain| < MAX_HOPS && pid !in chain
  }

  /** Walking up from the agent meets `pid` within the bound. */
  ghost predicate IsAbove(proc: Proc, agent: Pid, pid: Pid) {
    exists chain :: IsWalk(proc, agent, chain) && |chain| <= MAX_HOPS && chain[|chain| - 1] == pid
  }

  /** Walks up from the agent. A `false` is only given after the whole ancestry
      was seen; 256 hops without an end or an unreadable status is an error. */
  method PidIsAgentAncestor(proc: Proc, target: Pid, agent: Pid) returns (r: Result<bool, ()>)
    ensures r == Ok(false) <==> IsClear(proc, agent, target)
    ensures r == Ok(true) <==> IsAbove(proc, agent, target)
  {
    hide IsClear, IsAbove;
    var cur := agent;
    ghost var chain: seq<Pid> := [];
    for hop := 0 to MAX_HOPS
      invariant |chain| == hop && IsChain(proc, chain) && target !in chain
      invariant forall i :: 0 <= i < hop ==> chain[i] != 0 && chain[i] != 1
      invariant if hop == 0 then cur == agent else chain[0] == agent && ReadPPID(proc, chain[hop - 1]) == Ok(cur)
    {
      if cur == 0 || cur == 1 {
        FoundClear(proc, agent, target, chain);
        return Ok(false);
      }
      chain := chain + [cur];
      if cur == target {
        FoundAbove(proc, agent, target, chain);
        return Ok(true);
      }
      var ppid := ReadPPID(proc, cur);
      if ppid.Err? {
        Undecided(proc, agent, target, chain);
        return Err(());
      }
      cur := ppid.value;
    }
    Undecided(proc, agent, target, chain);
    return Err(());
  }

  /** A pid that may be signalled: not init, not the agent, and not on the
      agent's ancestry, which the guard has seen to its end. */
  ghost predicate Harmless(proc: Proc, self: Pid, pid: Pid) {
    pid != 1 && pid != self && IsClear(proc, self, pid)
  }

  /** Refuses exactly the pids that are not harmless. */
  method RefuseDangerousPID(proc: Proc, self: Pid, pid: Pid) returns (refused: bool)
    ensures refused <==> !Harmless(proc, self, pid)
    ensures !refused ==> pid != 1 && pid != self && !IsAbove(proc, self, pid)
  {
    hide IsClear, IsAbove;
    if pid == 1 {
      return true;
    }
    if pid == self {
      return true;
    }
    var ancestor := PidIsAgentAncestor(proc, pid, self);
    return ancestor.Err? || ancestor.value;
  }

  lemma FoundClear(proc: Proc, agent: Pid, target: Pid, chain: seq<Pid>)
    requires IsAncestry(proc, agent, chain) && |chain| < MAX_HOPS && target !in chain
    ensures IsClear(proc, agent, target) && !IsAbove(proc, agent, target)
  {
    forall walk | IsWalk(proc, agent, walk)
      ensures walk[|walk| - 1] != target
    {
      ChainWithin(proc, agent, walk, chain, |walk|);
    }
  }

  lemma FoundAbove(proc: Proc, agent: Pid, target: Pid, chain: seq<Pid>)
    requires IsWalk(proc, agent, chain) && |chain| <= MAX_HOPS && chain[|chain| - 1] == target
    ensures IsAbove(proc, agent, target) && !IsClear(proc, agent, target)
  {
    forall full | IsAncestry(proc, agent, full)
      ensures target in full
    {
      ChainWithin(proc, agent, chain, full, |chain|);
    }
  }

  lemma Undecided(proc: Proc, agent: Pid, target: Pid, chain: seq<Pid>)
    requires IsWalk(proc, agent, chain) && target !in chain
    requires ReadPPID(proc, chain[|chain| - 1]).Err? || |chain| == MAX_HOPS
    ensures !IsClear(proc, agent, target) && !IsAbove(proc, agent, target)
  {
    forall full | IsAncestry(proc, agent, full)
      ensures |full| >= MAX_HOPS
    {
      ChainWithin(proc, agent, chain, full, |chain|);
      EveryParentKnown(proc, agent, full, |chain| - 1);
    }
    forall walk | IsWalk(proc, agent, walk) && |walk| <= MAX_HOPS
      ensures walk[|walk| - 1] != target
    {
      var n := if |walk| < |chain| then |walk| else |chain|;
      WalksAgree(proc, agent, walk, chain, n);
      WalkReads(proc, agent, walk);
    }
  }

  lemma WalkReads(proc: Proc, agent: Pid, walk: seq<Pid>)
    requires IsWalk(proc, agent, walk)
    ensures forall k :: 0 <= k < |walk| - 1 ==> ReadPPID(proc, walk[k]).Ok?
  {
    forall k | 0 <= k < |walk| - 1
      ensures ReadPPID(proc, walk[k]).Ok?
    {
      assert ReadPPID(proc, walk[k]) == Ok(walk[k + 1]);
    }
  }

  lemma {:induction false} WalksAgree(proc: Proc, agent: Pid, a: seq<Pid>, b: seq<Pid>, n: nat)
    requires IsWalk(proc, agent, a) && IsWalk(proc, agent, b) && n <= |a| && n <= |b|
    ensures forall i :: 0 <= i < n ==> a[i] == b[i]
  {
    if n > 1 {
      WalksAgree(proc, agent, a, b, n - 1);
      assert ReadPPID(proc, a[n - 2]) == Ok(a[n - 1]) && ReadPPID(proc, b[n - 2]) == Ok(b[n - 1]);
    }
  }

  lemma EveryParentKnown(proc: Proc, self: Pid, full: seq<Pid>, k: nat)
    requires IsAncestry(proc, self, full) && k < |full|
    ensures ReadPPID(proc, full[k]).Ok?
  {
    assert k + 1 < |full| ==> ReadPPID(proc, full[k]) == Ok(full[k + 1]);
  }

  /** Any walk from the agent that avoids 0 and 1 runs along the full ancestry. */
  lemma {:induction false} ChainWithin(proc: Proc, self: Pid, chain: seq<Pid>, full: seq<Pid>, n: nat)
    requires IsWalk(proc, self, chain) && IsAncestry(proc, self, full) && n <= |chain|
    ensures n <= |full| && forall i :: 0 <= i < n ==> full[i] == chain[i]
  {
    if n > 1 {
      ChainWithin(proc, self, chain, full, n - 1);
      assert full[n - 2] == chain[n - 2] && ReadPPID(proc, chain[n - 2]) == Ok(chain[n - 1]);
      assert n <= |full|;
    }
  }

  /** A harmless pid is on no ancestry of the agent at all. */
  lemma HarmlessAvoidsAncestry(proc: Proc, self: Pid, pid: Pid, full: seq<Pid>)
    requires Harmless(proc, self, pid) && IsAncestry(proc, self, full)
    ensures pid !in full
  {
    var chain :| IsAncestry(proc, self, chain) && |chain| < MAX_HOPS && pid !in chain;
    if full != [] {
      ChainWithin(proc, self, full, chain, |full|);
    }
  }

  /** One step up: a named parent other than 0 and 1 is above the agent, a process
      that is gone or a child of init has none above it, and a status that cannot
      be read leaves the question open. */
  lemma OneStepUp(proc: Proc, agent: Pid, pid: Pid)
    requires agent != 0 && agent != 1
    ensures agent in proc.statuses && proc.statuses[agent] == Parent(pid) && pid != 0 && pid != 1 ==>
              IsAbove(proc, agent, pid)
    ensures agent !in proc.statuses || proc.statuses[agent] in {NoSuchProcess, Parent(0), Parent(1)} ==>
              (IsClear(proc, agent, pid) <==> pid != agent)
    ensures agent in proc.statuses && proc.statuses[agent] == BadStatus ==>
              !IsClear(proc, agent, pid) && (IsAbove(proc, agent, pid) <==> pid == agent)
  {
    if agent in proc.statuses && proc.statuses[agent] == Parent(pid) && pid != 0 && pid != 1 {
      assert IsWalk(proc, agent, [agent, pid]);
    }
    var one := [agent];
    assert IsWalk(proc, agent, one);
    if agent !in proc.statuses || proc.statuses[agent] in {NoSuchProcess, Parent(0), Parent(1)} {
      assert IsAncestry(proc, agent, one);
      if pid == agent {
        FoundAbove(proc, agent, pid, one);
      } else {
        FoundClear(proc, agent, pid, one);
      }
    } else if proc.statuses[agent] == BadStatus {
      if pid == agent {
        FoundAbove(proc, agent, pid, one);
      } else {
        Undecided(proc, agent, pid, one);
      }
    }
  }

  // ----- the handler -----

  datatype Signal = Term(pid: Pid) | Kill(pid: Pid)

  datatype Reason = BadTarget | Dangerous | WalkFailed(e: WalkError)

  datatype Outcome = Killed | Cancelled | Refused(why: Reason)

  function Terms(tree: seq<Pid>): seq<Signal> {
    if tree == [] then [] else Terms(tree[..|tree| - 1]) + [Term(tree[|tree| - 1])]
  }

  function Kills(tree: seq<Pid>, alive: set<Pid>): seq<Signal> {
    if tree == [] then []
    else Kills(tree[..|tree| - 1], alive) + (if tree[|tree| - 1] in alive then [Kill(tree[|tree| - 1])] else [])
  }

  lemma {:induction false} SignalsWithin(tree: seq<Pid>, alive: set<Pid>)
    ensures forall s :: s in Terms(tree) ==> s.pid in tree
    ensures forall s :: s in Kills(tree, alive) ==> s.pid in tree
    ensures |Terms(tree)| == |tree|
  {
    if tree != [] {
      SignalsWithin(tree[..|tree| - 1], alive);
    }
  }

  lemma {:induction false} TermsExact(tree: seq<Pid>)
    requires Distinct(tree)
    ensures forall s :: s in Terms(tree) <==> s.Term? && s.pid in tree
    ensures Distinct(Terms(tree))
  {
    if tree != [] {
      var front, last := tree[..|tree| - 1], tree[|tree| - 1];
      TermsExact(front);
      assert last !in front;
      assert forall x :: x in tree <==> x in front || x == last;
    }
  }

  lemma {:induction false} KillsExact(tree: seq<Pid>, alive: set<Pid>)
    requires Distinct(tree)
    ensures forall s :: s in Kills(tree, alive) <==> s.Kill? && s.pid in tree && s.pid in alive
    ensures Distinct(Kills(tree, alive))
  {
    if tree != [] {
      var front, last := tree[..|tree| - 1], tree[|tree| - 1];
      KillsExact(front, alive);
      assert last !in front;
      assert forall x :: x in tree <==> x in front || x == last;
    }
  }

  /** What is signalled: everyone is asked to end, and then exactly those still
      there are killed, unless the request was cancelled. */
  lemma SignalsExact(tree: seq<Pid>, cancelled: bool, alive: set<Pid>)
    requires Distinct(tree)
    ensures var signals := Terms(tree) + if cancelled then [] else Kills(tree, alive);
            && (forall p :: Term(p) in signals <==> p in tree)
            && (forall p :: Kill(p) in signals <==> !cancelled && p in tree && p in alive)
            && Distinct(signals)
            && (forall i, j :: 0 <= i < |signals| && 0 <= j < |signals| && signals[i].Term? && signals[j].Kill? ==> i < j)
  {
    hide Terms, Kills;
    TermsExact(tree);
    KillsExact(tree, alive);
    var a, b := Terms(tree), if cancelled then [] else Kills(tree, alive);
    assert forall i :: 0 <= i < |a| ==> a[i] in a;
    assert forall i :: 0 <= i < |b| ==> b[i] in b;
  }

  /** `target` is the parsed request, `alive` who survives the grace period and
      `cancelled` whether the request was cancelled during it. Either the whole
      tree is signalled, and then nobody in it is init, the agent or one of its
      ancestors, or nobody is, and the reason holds. */
  method KillTreeHandler(proc: Proc, self: Pid, target: Option<Pid>, cancelled: bool, alive: set<Pid>)
    returns (signals: seq<Signal>, outcome: Outcome, ghost tree: seq<Pid>)
    ensures forall s :: s in signals ==> Harmless(proc, self, s.pid)
    ensures forall s :: s in signals ==> s.pid != 1 && s.pid != self && !IsAbove(proc, self, s.pid)
    ensures outcome.Refused? <==> signals == []
    ensures outcome == Refused(BadTarget) <==> target.None? || target.value <= 0
    ensures outcome == Refused(Dangerous) ==> exists p :: p in Tree(proc, target.value) && !Harmless(proc, self, p)
    ensures outcome == Refused(WalkFailed(TooMany)) ==> |Tree(proc, target.value)| > MAX_DESCENDANTS
    ensures outcome == Refused(WalkFailed(ReadFailed)) ==> !AllReadable(proc, target.value)
    ensures !outcome.Refused? ==> AllReadable(proc, target.value)
    ensures !outcome.Refused? ==> outcome == if cancelled then Cancelled else Killed
    ensures !outcome.Refused? ==> Distinct(tree) && Elements(tree) == Tree(proc, target.value) && |tree| <= MAX_DESCENDANTS
    ensures !outcome.Refused? ==> signals == Terms(tree) + if cancelled then [] else Kills(tree, alive)
    ensures !outcome.Refused? ==> forall p :: Term(p) in signals <==> p in Tree(proc, target.value)
    ensures outcome.Killed? ==> forall p :: Kill(p) in signals <==> p in Tree(proc, target.value) && p in alive
    ensures outcome.Cancelled? ==> forall p :: Kill(p) !in signals
    ensures Distinct(signals)
    ensures forall i, j :: 0 <= i < |signals| && 0 <= j < |signals| && signals[i].Term? && signals[j].Kill? ==> i < j
  {
    hide Tree, Harmless, IsAbove, AllReadable;
    signals, tree := [], [];
    if target.None? || target.value <= 0 {
      outcome := Refused(BadTarget);
      return;
    }
    var root := target.value;
    RootReachable(proc, root);
    var refused := RefuseDangerousPID(proc, self, root);
    if refused {
      outcome := Refused(Dangerous);
      return;
    }
    var collected := CollectDescendants(proc, root, MAX_DESCENDANTS);
    if collected.Err? {
      outcome := Refused(WalkFailed(collected.error));
      return;
    }
    var pids := collected.value;
    for i := 0 to |pids|
      invariant forall k :: 0 <= k < i ==> Harmless(proc, self, pids[k])
      invariant forall k :: 0 <= k < i ==> pids[k] != 1 && pids[k] != self && !IsAbove(proc, self, pids[k])
    {
      refused := RefuseDangerousPID(proc, self, pids[i]);
      if refused {
        assert pids[i] in Elements(pids);
        outcome := Refused(Dangerous);
        return;
      }
    }
    tree := pids;
    DistinctSize(pids);
    assert root in Elements(pids);
    SignalsWithin(pids, alive);
    signals := SignalAll(pids, cancelled, alive);
    SignalsExact(pids, cancelled, alive);
    outcome := if cancelled then Cancelled else Killed;
  }

  /** SIGTERM to everyone, then SIGKILL to those still there after the grace. */
  method SignalAll(pids: seq<Pid>, cancelled: bool, alive: set<Pid>) returns (signals: seq<Signal>)
    ensures signals == Terms(pids) + if cancelled then [] else Kills(pids, alive)
  {
    signals := [];
    for i := 0 to |pids|
      invariant signals == Terms(pids[..i])
    {
      assert pids[..i + 1][..i] == pids[..i];
      signals := signals + [Term(pids[i])];
    }
    assert pids[..|pids|] == pids;
    if cancelled {
      return;
    }
    assert signals == Terms(pids) + Kills(pids[..0], alive);
    for i := 0 to |pids|
      invariant signals == Terms(pids) + Kills(pids[..i], alive)
    {
      assert pids[..i + 1][..i] == pids[..i];
      if pids[i] in alive {
        signals := signals + [Kill(pids[i])];
      }
    }
  }
}
