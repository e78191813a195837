/**
 * MailFolderConflictInfo and the walk of MailFolderNode.compare
 * (background/background.js): a work stack of (source node, matched
 * destination node, report parent) frames, each popped frame adding one
 * report object under its parent.
 *
 * The walk is proved against Conflicts.Compare: a ghost map `exp` holds, for
 * every report object made so far, the report it will stand for once the
 * stack is empty, and the jobs still on the stack account for the reports
 * each object is still missing.
 */
module ConflictWalk {
  import opened Wrappers
  import opened Folders
  import opened FolderNodes
  import opened Conflicts

  class MailFolderConflictInfo {
    /** Whether the matched destination parent has a folder of this name. */
    var conflict: bool
    /** How many of this report's children are flagged. */
    var conflicts: nat
    var children: seq<MailFolderConflictInfo>
    const name: string
    const infoType: string
    const isSpecial: bool
    /** Above the ranks of all reports below this one; it only serves to show
        that the abstraction `AbsInfo` is well founded. */
    ghost const rank: nat

    constructor (name: string, infoType: string, isSpecial: bool, ghost rank: nat)
      ensures this.name == name && this.infoType == infoType && this.isSpecial == isSpecial
      ensures this.rank == rank && !conflict && conflicts == 0 && children == []
    {
      this.name := name;
      this.infoType := infoType;
      this.isSpecial := isSpecial;
      this.rank := rank;
      conflict := false;
      conflicts := 0;
      children := [];
    }

    /** A report for a node, carrying only its name, type and special flag. */
    static method FromMailFolderNode(node: MailFolderNode, ghost rank: nat) returns (info: MailFolderConflictInfo)
      ensures fresh(info) && info.rank == rank
      ensures info.name == Name(node.folder) && info.infoType == Type(node.folder) && info.isSpecial == IsSpecial(node.folder)
      ensures !info.conflict && info.conflicts == 0 && info.children == []
    {
      info := new MailFolderConflictInfo(Name(node.folder), Type(node.folder), IsSpecial(node.folder), rank);
    }
  }

  /** A set of report objects that holds the children of its members, each of lower rank. */
  ghost predicate InfoClosed(R: set<MailFolderConflictInfo>)
    reads R
  {
    forall r, i :: r in R && 0 <= i < |r.children| ==> r.children[i] in R && r.children[i].rank < r.rank
  }

  /** The report value that the objects reachable from `r` currently stand for. */
  ghost function AbsInfo(r: MailFolderConflictInfo, R: set<MailFolderConflictInfo>): Report
    reads R
    requires r in R && InfoClosed(R)
    decreases r.rank
  {
    Report(r.name, r.infoType, r.isSpecial, r.conflict, r.conflicts,
           seq(|r.children|, i requires 0 <= i < |r.children| && r in R && InfoClosed(R) reads R => AbsInfo(r.children[i], R)))
  }

  /** A work-stack frame: source node, matched destination node (or null) and
      the report object that receives what the frame produces. */
  datatype Frame = Frame(src: MailFolderNode, dest: MailFolderNode?, parent: MailFolderConflictInfo)

  /** A frame as values. */
  datatype Job = Job(src: Tree, dest: Option<Tree>, parent: MailFolderConflictInfo)

  ghost predicate FrameIn(f: Frame, T: map<MailFolderNode, Tree>)
  {
    f.src in T && (f.dest != null ==> f.dest in T)
  }

  ghost function JobOf(f: Frame, T: map<MailFolderNode, Tree>): Job
    requires FrameIn(f, T)
  {
    Job(T[f.src], OptT(f.dest, T), f.parent)
  }

  /** The jobs for the first `n` children of `s`, in the order they are pushed. */
  function ChildJobs(s: Tree, d: Option<Tree>, p: MailFolderConflictInfo, n: nat): (r: seq<Job>)
    requires n <= |s.children|
    ensures |r| == n && forall i :: 0 <= i < n ==> r[i] == Job(s.children[i], Match(d, s.children[i]), p)
  {
    seq(n, i requires 0 <= i < n => Job(s.children[i], Match(d, s.children[i]), p))
  }

  /** What a job will add under report object `r`. */
  function Contribution(j: Job, r: MailFolderConflictInfo): seq<Report>
  {
    if j.parent == r then Emit(j.src, j.dest) else []
  }

  /** What the jobs on the stack will still add under `r`, top of the stack first. */
  function PendingFor(todo: seq<Job>, r: MailFolderConflictInfo): seq<Report>
  {
    if todo == [] then []
    else Contribution(todo[|todo| - 1], r) + PendingFor(todo[..|todo| - 1], r)
  }

  /** The number of tree nodes still to visit. */
  function Work(todo: seq<Job>): nat
  {
    if todo == [] then 0 else TreeSize(todo[|todo| - 1].src) + Work(todo[..|todo| - 1])
  }

  /** The state of a report object, as a value. */
  datatype InfoState = InfoState(conflict: bool, conflicts: nat, children: seq<MailFolderConflictInfo>)

  ghost function Expand(exp: map<MailFolderConflictInfo, Report>, cs: seq<MailFolderConflictInfo>): (r: seq<Report>)
    requires forall i :: 0 <= i < |cs| ==> cs[i] in exp
    ensures |r| == |cs| && forall i :: 0 <= i < |cs| ==> r[i] == exp[cs[i]]
  {
    seq(|cs|, i requires 0 <= i < |cs| && cs[i] in exp => exp[cs[i]])
  }

  /** The snapshot `H` of the report objects and the reports `exp` they will
      stand for agree on everything that is already final: the attributes,
      the flag, and the counter of the children added so far. */
  ghost predicate InfosOk(H: map<MailFolderConflictInfo, InfoState>, exp: map<MailFolderConflictInfo, Report>)
  {
    H.Keys == exp.Keys && InfosClosed(H) && FieldsOk(H, exp) && CountsOk(H, exp)
  }

  /** Children are known report objects of lower rank. */
  ghost predicate InfosClosed(H: map<MailFolderConflictInfo, InfoState>)
  {
    forall r, i :: r in H && 0 <= i < |H[r].children| ==> H[r].children[i] in H && H[r].children[i].rank < r.rank
  }

  ghost predicate FieldsOk(H: map<MailFolderConflictInfo, InfoState>, exp: map<MailFolderConflictInfo, Report>)
    requires H.Keys == exp.Keys
  {
    forall r {:trigger H[r]} :: r in H ==> FieldOk(r, H[r], exp[r])
  }

  /** A report object agrees with its expected report on the attributes and
      the flag, and the expected counter counts the expected children. */
  ghost predicate FieldOk(r: MailFolderConflictInfo, st: InfoState, e: Report)
  {
    r.name == e.name && r.infoType == e.reportType && r.isSpecial == e.isSpecial &&
    st.conflict == e.conflict && e.conflicts == CountConflicts(e.children)
  }

  ghost predicate CountsOk(H: map<MailFolderConflictInfo, InfoState>, exp: map<MailFolderConflictInfo, Report>)
    requires H.Keys == exp.Keys && InfosClosed(H)
  {
    forall r {:trigger Expand(exp, H[r].children)} :: r in H ==> H[r].conflicts == CountConflicts(Expand(exp, H[r].children))
  }

  /** Every report object's children so far, followed by what the stack will
      still add under it, are the children of the report it will stand for. */
  ghost predicate PendingOk(H: map<MailFolderConflictInfo, InfoState>, exp: map<MailFolderConflictInfo, Report>,
                            todo: seq<Job>)
    requires H.Keys == exp.Keys && InfosClosed(H)
  {
    && (forall i :: 0 <= i < |todo| ==> todo[i].parent in H)
    && (forall r {:trigger PendingFor(todo, r)} :: r in H ==> Expand(exp, H[r].children) + PendingFor(todo, r) == exp[r].children)
  }

  /** The snapshot describes the heap. */
  ghost predicate Linked(H: map<MailFolderConflictInfo, InfoState>)
    reads H.Keys
  {
    forall r {:trigger H[r]} :: r in H ==>
      r.conflict == H[r].conflict && r.conflicts == H[r].conflicts && r.children == H[r].children
  }

  /** The stack's frames lie in the snapshot and stand for the jobs `todo`,
      each job's tree smaller than the rank of its parent report object. */
  ghost predicate FramesOk(stack: seq<Frame>, todo: seq<Job>, T: map<MailFolderNode, Tree>)
  {
    && |todo| == |stack|
    && forall i :: 0 <= i < |stack| ==>
         FrameIn(stack[i], T) && todo[i] == JobOf(stack[i], T) && TreeSize(todo[i].src) < stack[i].parent.rank
  }

  /** The heap-free part of what compare's loop keeps: the snapshot `H` of
      the report objects agrees with the ghost reports `exp`, and the stack
      stands for the jobs `todo`. */
  ghost predicate Plan(stack: seq<Frame>, todo: seq<Job>, H: map<MailFolderConflictInfo, InfoState>,
                       exp: map<MailFolderConflictInfo, Report>, T: map<MailFolderNode, Tree>)
  {
    InfosOk(H, exp) && PendingOk(H, exp, todo) && FramesOk(stack, todo, T)
  }

  /** Everything compare's loop keeps: the snapshots describe the heap, and
      the plan holds. */
  ghost predicate Walking(stack: seq<Frame>, todo: seq<Job>, H: map<MailFolderConflictInfo, InfoState>,
                          exp: map<MailFolderConflictInfo, Report>, T: map<MailFolderNode, Tree>)
    reads T.Keys, H.Keys
  {
    Represents(T) && Linked(H) && Plan(stack, todo, H, exp, T)
  }

  /** The children reports of a frame's source node. */
  function Kids(j: Job): seq<Report>
  {
    EmitRev(j.src, j.dest, |j.src.children|)
  }

  /** The report a non-root job adds under its parent. */
  function ReportOf(j: Job): Report
  {
    Report(Name(j.src.folder), Type(j.src.folder), IsSpecial(j.src.folder), j.dest.Some?, CountConflicts(Kids(j)), Kids(j))
  }

  /** The snapshot after a new report object `c` is appended under `p`,
      counted there when it is flagged. */
  ghost function AddChild(H: map<MailFolderConflictInfo, InfoState>, p: MailFolderConflictInfo,
                          c: MailFolderConflictInfo, flagged: bool): map<MailFolderConflictInfo, InfoState>
    requires p in H
  {
    H[p := InfoState(H[p].conflict, H[p].conflicts + (if flagged then 1 else 0), H[p].children + [c])]
     [c := InfoState(flagged, 0, [])]
  }

  lemma PendingSnoc(rest: seq<Job>, j: Job, r: MailFolderConflictInfo)
    ensures PendingFor(rest + [j], r) == Contribution(j, r) + PendingFor(rest, r)
  {
    assert (rest + [j])[..|rest|] == rest;
  }

  /** A report object that no job names as parent gets nothing more. */
  lemma {:induction false} PendingNone(todo: seq<Job>, r: MailFolderConflictInfo)
    requires forall i :: 0 <= i < |todo| ==> todo[i].parent != r
    ensures PendingFor(todo, r) == []
  {
    if todo != [] {
      PendingNone(todo[..|todo| - 1], r);
    }
  }

  /** Pushing the jobs for the children of `s` under `p` adds, for `p`, the
      reports of those children, last child first. */
  lemma {:induction false} PendingChildJobs(rest: seq<Job>, s: Tree, d: Option<Tree>, p: MailFolderConflictInfo,
                                            n: nat, r: MailFolderConflictInfo)
    requires n <= |s.children|
    ensures PendingFor(rest + ChildJobs(s, d, p, n), r) == (if p == r then EmitRev(s, d, n) else []) + PendingFor(rest, r)
  {
    if n == 0 {
      assert rest + ChildJobs(s, d, p, n) == rest;
    } else {
      var c := s.children[n - 1];
      var j := Job(c, Match(d, c), p);
      var before := rest + ChildJobs(s, d, p, n - 1);
      assert rest + ChildJobs(s, d, p, n) == before + [j];
      PendingSnoc(before, j, r);
      PendingChildJobs(rest, s, d, p, n - 1, r);
      var tail := PendingFor(rest, r);
      if p == r {
        var head, prev := Emit(c, Match(d, c)), EmitRev(s, d, n - 1);
        assert Contribution(j, r) == head;
        assert PendingFor(before, r) == prev + tail;
        assert EmitRev(s, d, n) == head + prev;
        Assoc(head, prev, tail);
      } else {
        assert Contribution(j, r) == [];
        assert PendingFor(before, r) == [] + tail;
      }
    }
  }

  lemma {:induction false} WorkChildJobs(rest: seq<Job>, s: Tree, d: Option<Tree>, p: MailFolderConflictInfo, n: nat)
    requires n <= |s.children|
    ensures Work(rest + ChildJobs(s, d, p, n)) == Work(rest) + TreeSizeRev(s, n)
  {
    if n == 0 {
      assert rest + ChildJobs(s, d, p, n) == rest;
    } else {
      var c := s.children[n - 1];
      var j := Job(c, Match(d, c), p);
      var before := rest + ChildJobs(s, d, p, n - 1);
      assert rest + ChildJobs(s, d, p, n) == before + [j];
      assert (before + [j])[..|before|] == before;
      WorkChildJobs(rest, s, d, p, n - 1);
    }
  }

  /** Popping a frame and pushing its children leaves less to visit. */
  lemma WorkShrinks(rest: seq<Job>, j: Job, p: MailFolderConflictInfo)
    ensures Work(rest + ChildJobs(j.src, j.dest, p, |j.src.children|)) < Work(rest + [j])
    ensures Work(rest) < Work(rest + [j])
  {
    assert (rest + [j])[..|rest|] == rest;
    WorkChildJobs(rest, j.src, j.dest, p, |j.src.children|);
  }

  /** An ignored frame adds nothing. */
  lemma IgnoredStep(H: map<MailFolderConflictInfo, InfoState>, exp: map<MailFolderConflictInfo, Report>,
                    rest: seq<Job>, j: Job)
    requires H.Keys == exp.Keys && InfosClosed(H) && PendingOk(H, exp, rest + [j])
    requires ShouldIgnore(j.src.folder)
    ensures PendingOk(H, exp, rest)
  {
    forall i | 0 <= i < |rest| ensures rest[i].parent in H {
      assert (rest + [j])[i] == rest[i];
    }
    assert Emit(j.src, j.dest) == [];
    forall r | r in H ensures Expand(exp, H[r].children) + PendingFor(rest, r) == exp[r].children {
      PendingSnoc(rest, j, r);
      assert PendingFor(rest + [j], r) == PendingFor(rest, r);
    }
  }

  /** A root frame hands its children to its own parent report object. */
  lemma RootStep(H: map<MailFolderConflictInfo, InfoState>, exp: map<MailFolderConflictInfo, Report>,
                 rest: seq<Job>, j: Job)
    requires H.Keys == exp.Keys && InfosClosed(H) && PendingOk(H, exp, rest + [j])
    requires !ShouldIgnore(j.src.folder) && j.src.isRoot
    ensures PendingOk(H, exp, rest + ChildJobs(j.src, j.dest, j.parent, |j.src.children|))
  {
    var todo := rest + ChildJobs(j.src, j.dest, j.parent, |j.src.children|);
    assert (rest + [j])[|rest|] == j;
    forall i | 0 <= i < |todo| ensures todo[i].parent in H {
      if i < |rest| {
        assert (rest + [j])[i] == rest[i];
      }
    }
    forall r | r in H ensures Expand(exp, H[r].children) + PendingFor(todo, r) == exp[r].children {
      PendingSnoc(rest, j, r);
      PendingChildJobs(rest, j.src, j.dest, j.parent, |j.src.children|, r);
    }
  }

  /** Appending a new report object for a non-root frame keeps the
      attributes, flags and counters in agreement. */
  lemma InfosStep(H: map<MailFolderConflictInfo, InfoState>, exp: map<MailFolderConflictInfo, Report>,
                  j: Job, c: MailFolderConflictInfo)
    requires InfosOk(H, exp) && j.parent in H && c !in H
    requires c.name == Name(j.src.folder) && c.infoType == Type(j.src.folder) && c.isSpecial == IsSpecial(j.src.folder)
    requires c.rank < j.parent.rank
    ensures InfosOk(AddChild(H, j.parent, c, j.dest.Some?), exp[c := ReportOf(j)])
  {
    KeysStep(H, exp, j.parent, c, j.dest.Some?, ReportOf(j));
    ClosedStep(H, j.parent, c, j.dest.Some?);
    FieldsStep(H, exp, j, c);
    CountsStep(H, exp, j, c);
  }

  lemma ClosedStep(H: map<MailFolderConflictInfo, InfoState>, p: MailFolderConflictInfo,
                   c: MailFolderConflictInfo, flagged: bool)
    requires InfosClosed(H) && p in H && c !in H && c.rank < p.rank
    ensures InfosClosed(AddChild(H, p, c, flagged))
  {
    var H' := AddChild(H, p, c, flagged);
    forall r, i | r in H' && 0 <= i < |H'[r].children|
      ensures H'[r].children[i] in H' && H'[r].children[i].rank < r.rank
    {
      if r != c && r != p {
        assert H'[r] == H[r];
      } else if r == p && i < |H[p].children| {
        assert H'[r].children[i] == H[p].children[i];
      }
    }
  }

  lemma KeysStep(H: map<MailFolderConflictInfo, InfoState>, exp: map<MailFolderConflictInfo, Report>,
                 p: MailFolderConflictInfo, c: MailFolderConflictInfo, flagged: bool, v: Report)
    requires H.Keys == exp.Keys && p in H
    ensures AddChild(H, p, c, flagged).Keys == exp[c := v].Keys == H.Keys + {c}
  {
  }

  lemma FieldsStep(H: map<MailFolderConflictInfo, InfoState>, exp: map<MailFolderConflictInfo, Report>,
                   j: Job, c: MailFolderConflictInfo)
    requires H.Keys == exp.Keys && FieldsOk(H, exp) && j.parent in H && c !in H
    requires c.name == Name(j.src.folder) && c.infoType == Type(j.src.folder) && c.isSpecial == IsSpecial(j.src.folder)
    ensures AddChild(H, j.parent, c, j.dest.Some?).Keys == exp[c := ReportOf(j)].Keys
    ensures FieldsOk(AddChild(H, j.parent, c, j.dest.Some?), exp[c := ReportOf(j)])
  {
    var H', exp' := AddChild(H, j.parent, c, j.dest.Some?), exp[c := ReportOf(j)];
    KeysStep(H, exp, j.parent, c, j.dest.Some?, ReportOf(j));
    forall r | r in H' ensures FieldOk(r, H'[r], exp'[r]) {
      if r == j.parent {
        assert FieldOk(r, H[r], exp[r]);
      } else if r != c {
        assert H'[r] == H[r];
      }
    }
  }

  lemma CountsStep(H: map<MailFolderConflictInfo, InfoState>, exp: map<MailFolderConflictInfo, Report>,
                   j: Job, c: MailFolderConflictInfo)
    requires H.Keys == exp.Keys && InfosClosed(H) && CountsOk(H, exp) && j.parent in H && c !in H
    requires InfosClosed(AddChild(H, j.parent, c, j.dest.Some?))
    ensures AddChild(H, j.parent, c, j.dest.Some?).Keys == exp[c := ReportOf(j)].Keys
    ensures CountsOk(AddChild(H, j.parent, c, j.dest.Some?), exp[c := ReportOf(j)])
  {
    var p, v := j.parent, ReportOf(j);
    var H', exp' := AddChild(H, p, c, j.dest.Some?), exp[c := v];
    forall r | r in H' ensures H'[r].conflicts == CountConflicts(Expand(exp', H'[r].children)) {
      if r == c {
        assert Expand(exp', H'[r].children) == [];
      } else if r == p {
        ExpandSnoc(exp, H[p].children, c, v);
        CountSnoc(Expand(exp, H[p].children), v);
      } else {
        ExpandUnchanged(H, exp, c, v, r);
        assert H'[r] == H[r];
      }
    }
  }

  lemma ExpandSnoc(exp: map<MailFolderConflictInfo, Report>, cs: seq<MailFolderConflictInfo>,
                   c: MailFolderConflictInfo, v: Report)
    requires c !in exp && forall i :: 0 <= i < |cs| ==> cs[i] in exp
    ensures Expand(exp[c := v], cs + [c]) == Expand(exp, cs) + [v]
  {
  }

  lemma CountSnoc(rs: seq<Report>, v: Report)
    ensures CountConflicts(rs + [v]) == CountConflicts(rs) + (if v.conflict then 1 else 0)
  {
    assert (rs + [v])[..|rs|] == rs;
  }

  /** A report object outside the snapshot does not change what the
      children of a snapshot object stand for. */
  lemma ExpandUnchanged(H: map<MailFolderConflictInfo, InfoState>, exp: map<MailFolderConflictInfo, Report>,
                        c: MailFolderConflictInfo, v: Report, r: MailFolderConflictInfo)
    requires H.Keys == exp.Keys && InfosClosed(H) && c !in H && r in H
    ensures Expand(exp[c := v], H[r].children) == Expand(exp, H[r].children)
  {
  }

  /** A non-root frame appends its report under its parent report object and
      hands its children to that new object. */
  lemma NonRootStep(H: map<MailFolderConflictInfo, InfoState>, exp: map<MailFolderConflictInfo, Report>,
                    rest: seq<Job>, j: Job, c: MailFolderConflictInfo)
    requires H.Keys == exp.Keys && InfosClosed(H) && PendingOk(H, exp, rest + [j])
    requires !ShouldIgnore(j.src.folder) && !j.src.isRoot
    requires j.parent in H && c !in H
    requires InfosClosed(AddChild(H, j.parent, c, j.dest.Some?))
    ensures PendingOk(AddChild(H, j.parent, c, j.dest.Some?), exp[c := ReportOf(j)],
                      rest + ChildJobs(j.src, j.dest, c, |j.src.children|))
  {
    var p, v := j.parent, ReportOf(j);
    var H', exp' := AddChild(H, p, c, j.dest.Some?), exp[c := v];
    var todo := rest + ChildJobs(j.src, j.dest, c, |j.src.children|);
    assert Emit(j.src, j.dest) == [v];
    forall i | 0 <= i < |rest| ensures rest[i].parent in H {
      assert (rest + [j])[i] == rest[i];
    }
    forall i | 0 <= i < |todo| ensures todo[i].parent in H' {
      if i < |rest| {
        assert todo[i] == rest[i];
      }
    }
    forall r | r in H' ensures Expand(exp', H'[r].children) + PendingFor(todo, r) == exp'[r].children {
      PendingSnoc(rest, j, r);
      PendingChildJobs(rest, j.src, j.dest, c, |j.src.children|, r);
      if r == c {
        PendingNone(rest, c);
        assert Expand(exp', H'[r].children) == [];
      } else if r == p {
        PendingAtParent(exp, H[p].children, c, v, PendingFor(rest, p), exp[p].children);
      } else {
        ExpandUnchanged(H, exp, c, v, r);
        assert H'[r].children == H[r].children;
      }
    }
  }

  lemma PendingAtParent(exp: map<MailFolderConflictInfo, Report>, cs: seq<MailFolderConflictInfo>,
                        c: MailFolderConflictInfo, v: Report, later: seq<Report>, all: seq<Report>)
    requires c !in exp && forall i :: 0 <= i < |cs| ==> cs[i] in exp
    requires Expand(exp, cs) + ([v] + later) == all
    ensures Expand(exp[c := v], cs + [c]) + ([] + later) == all
  {
    ExpandSnoc(exp, cs, c, v);
    Assoc(Expand(exp, cs), [v], later);
    assert [] + later == later;
  }

  /** The frames the walk pushes for the children of `src`: each child with
      its match among the children of `dest`, all under report object `clone`. */
  function PushedFrames(src: MailFolderNode, dest: MailFolderNode?, clone: MailFolderConflictInfo): (r: seq<Frame>)
    reads src, dest
    ensures |r| == |src.children|
    ensures forall i :: 0 <= i < |r| ==> r[i] == Frame(src.children[i], FindNode(dest, src.children[i]), clone)
  {
    seq(|src.children|, i requires 0 <= i < |src.children| reads src, dest =>
      Frame(src.children[i], FindNode(dest, src.children[i]), clone))
  }

  /** The loop over a popped frame's source children. It changes nothing in
      the heap, so the snapshots `H` and `T` still describe it afterwards. */
  method PushChildren(stack: seq<Frame>, src: MailFolderNode, dest: MailFolderNode?, clone: MailFolderConflictInfo,
                      ghost H: map<MailFolderConflictInfo, InfoState>, ghost T: map<MailFolderNode, Tree>)
    returns (stack': seq<Frame>)
    requires Linked(H) && Represents(T)
    ensures stack' == stack + PushedFrames(src, dest, clone)
    ensures Linked(H) && Represents(T)
  {
    stack' := stack;
    var k := 0;
    while k < |src.children|
      invariant 0 <= k <= |src.children|
      invariant stack' == stack + PushedFrames(src, dest, clone)[..k]
    {
      var child := src.children[k];
      var destNode := FindNode(dest, child);
      stack' := stack' + [Frame(child, destNode, clone)];
      k := k + 1;
    }
  }

  /** The pushed frames stand for the jobs of the children of the tree `src`
      stands for. */
  lemma PushedJobs(src: MailFolderNode, dest: MailFolderNode?, clone: MailFolderConflictInfo, T: map<MailFolderNode, Tree>)
    requires Represents(T) && src in T && (dest != null ==> dest in T)
    ensures |src.children| == |T[src].children|
    ensures forall i :: 0 <= i < |src.children| ==>
      FrameIn(PushedFrames(src, dest, clone)[i], T) &&
      JobOf(PushedFrames(src, dest, clone)[i], T) == ChildJobs(T[src], OptT(dest, T), clone, |src.children|)[i]
  {
    var t := T[src];
    assert NodeOk(T, src);
    forall i | 0 <= i < |src.children|
      ensures FrameIn(PushedFrames(src, dest, clone)[i], T)
      ensures JobOf(PushedFrames(src, dest, clone)[i], T) == Job(t.children[i], Match(OptT(dest, T), t.children[i]), clone)
    {
      FindNodeMatches(T, dest, src.children[i]);
    }
  }

  /** Popping the top frame keeps the frames in line with the jobs. */
  lemma FramesPop(stack: seq<Frame>, todo: seq<Job>, T: map<MailFolderNode, Tree>)
    requires |stack| > 0 && FramesOk(stack, todo, T)
    ensures FramesOk(stack[..|stack| - 1], todo[..|todo| - 1], T)
  {
    var rest, restJ := stack[..|stack| - 1], todo[..|todo| - 1];
    forall i | 0 <= i < |rest|
      ensures FrameIn(rest[i], T) && restJ[i] == JobOf(rest[i], T) && TreeSize(restJ[i].src) < rest[i].parent.rank
    {
      assert stack[i] == rest[i] && todo[i] == restJ[i];
    }
  }

  /** Replacing the top frame by the frames of its children keeps the frames
      in line with the jobs. */
  lemma FramesPush(stack: seq<Frame>, todo: seq<Job>, clone: MailFolderConflictInfo, T: map<MailFolderNode, Tree>)
    requires |stack| > 0 && Represents(T) && FramesOk(stack, todo, T)
    requires TreeSize(todo[|todo| - 1].src) <= clone.rank
    ensures FramesOk(stack[..|stack| - 1] + PushedFrames(stack[|stack| - 1].src, stack[|stack| - 1].dest, clone),
                     todo[..|todo| - 1] + ChildJobs(todo[|todo| - 1].src, todo[|todo| - 1].dest, clone,
                                                    |todo[|todo| - 1].src.children|), T)
  {
    var rest, f := stack[..|stack| - 1], stack[|stack| - 1];
    var restJ, j := todo[..|todo| - 1], todo[|todo| - 1];
    FramesPop(stack, todo, T);
    assert j == JobOf(f, T);
    PushedJobs(f.src, f.dest, clone, T);
    var pushed := PushedFrames(f.src, f.dest, clone);
    var jobs := ChildJobs(j.src, j.dest, clone, |j.src.children|);
    forall i | 0 <= i < |pushed|
      ensures FrameIn(pushed[i], T) && jobs[i] == JobOf(pushed[i], T) && TreeSize(jobs[i].src) < pushed[i].parent.rank
    {
      ChildSmaller(j.src, i);
    }
    FramesAppend(rest, restJ, pushed, jobs, T);
  }

  lemma FramesAppend(stack: seq<Frame>, todo: seq<Job>, more: seq<Frame>, jobs: seq<Job>, T: map<MailFolderNode, Tree>)
    requires FramesOk(stack, todo, T) && |more| == |jobs|
    requires forall i :: 0 <= i < |more| ==>
      FrameIn(more[i], T) && jobs[i] == JobOf(more[i], T) && TreeSize(jobs[i].src) < more[i].parent.rank
    ensures FramesOk(stack + more, todo + jobs, T)
  {
    var stack', todo' := stack + more, todo + jobs;
    forall i | 0 <= i < |stack'|
      ensures FrameIn(stack'[i], T) && todo'[i] == JobOf(stack'[i], T) && TreeSize(todo'[i].src) < stack'[i].parent.rank
    {
      if i >= |stack| {
        assert stack'[i] == more[i - |stack|] && todo'[i] == jobs[i - |stack|];
      } else {
        assert stack'[i] == stack[i] && todo'[i] == todo[i];
      }
    }
  }

  /** The heap after appending `c` under `p` is described by the new snapshot. */
  lemma LinkedStep(H: map<MailFolderConflictInfo, InfoState>, p: MailFolderConflictInfo,
                   c: MailFolderConflictInfo, flagged: bool)
    requires p in H && c !in H
    requires forall r :: r in H && r != p ==>
      r.conflict == H[r].conflict && r.conflicts == H[r].conflicts && r.children == H[r].children
    requires p.conflict == H[p].conflict && p.conflicts == H[p].conflicts + (if flagged then 1 else 0)
    requires p.children == H[p].children + [c]
    requires c.conflict == flagged && c.conflicts == 0 && c.children == []
    ensures Linked(AddChild(H, p, c, flagged))
  {
  }

  /** The last frame of a well-formed stack, and the job it stands for. */
  lemma PopFrame(stack: seq<Frame>, todo: seq<Job>, T: map<MailFolderNode, Tree>)
    requires |stack| > 0 && Represents(T) && FramesOk(stack, todo, T)
    ensures |todo| == |stack|
    ensures todo[|todo| - 1].parent == stack[|stack| - 1].parent
    ensures todo[|todo| - 1].src.folder == stack[|stack| - 1].src.folder
    ensures todo[|todo| - 1].src.isRoot == stack[|stack| - 1].src.isRoot
    ensures todo[|todo| - 1].dest.Some? == (stack[|stack| - 1].dest != null)
    ensures TreeSize(todo[|todo| - 1].src) < stack[|stack| - 1].parent.rank
  {
    var f := stack[|stack| - 1];
    assert todo[|todo| - 1] == JobOf(f, T);
    assert NodeOk(T, f.src);
  }

  /** A report for job `j`, held by the fresh object `c`, is appended under
      the job's parent; the children of `j` take its place on the stack. */
  lemma ReportStep(H: map<MailFolderConflictInfo, InfoState>, exp: map<MailFolderConflictInfo, Report>,
                   rest: seq<Job>, j: Job, c: MailFolderConflictInfo)
    requires InfosOk(H, exp) && PendingOk(H, exp, rest + [j])
    requires !ShouldIgnore(j.src.folder) && !j.src.isRoot && j.parent in H && c !in H
    requires c.name == Name(j.src.folder) && c.infoType == Type(j.src.folder) && c.isSpecial == IsSpecial(j.src.folder)
    requires c.rank < j.parent.rank
    ensures InfosOk(AddChild(H, j.parent, c, j.dest.Some?), exp[c := ReportOf(j)])
    ensures PendingOk(AddChild(H, j.parent, c, j.dest.Some?), exp[c := ReportOf(j)],
                      rest + ChildJobs(j.src, j.dest, c, |j.src.children|))
    ensures Work(rest + ChildJobs(j.src, j.dest, c, |j.src.children|)) < Work(rest + [j])
  {
    InfosStep(H, exp, j, c);
    ClosedStep(H, j.parent, c, j.dest.Some?);
    NonRootStep(H, exp, rest, j, c);
    WorkShrinks(rest, j, c);
  }

  /** The top frame lies in the snapshot, its parent report object is
      known, and its tree is smaller than that object's rank. */
  lemma TopFrame(stack: seq<Frame>, todo: seq<Job>, H: map<MailFolderConflictInfo, InfoState>,
                 exp: map<MailFolderConflictInfo, Report>, T: map<MailFolderNode, Tree>)
    requires |stack| > 0 && Plan(stack, todo, H, exp, T)
    ensures FrameIn(stack[|stack| - 1], T) && stack[|stack| - 1].parent in H
    ensures TreeSize(T[stack[|stack| - 1].src]) < stack[|stack| - 1].parent.rank
  {
    var f := stack[|stack| - 1];
    assert todo[|todo| - 1] == JobOf(f, T);
  }

  /** Dropping the frame of an ignored folder keeps the plan. */
  lemma SkipPlan(stack: seq<Frame>, todo: seq<Job>, H: map<MailFolderConflictInfo, InfoState>,
                 exp: map<MailFolderConflictInfo, Report>, T: map<MailFolderNode, Tree>)
    requires |stack| > 0 && Represents(T) && Plan(stack, todo, H, exp, T)
    requires ShouldIgnore(stack[|stack| - 1].src.folder)
    ensures Plan(stack[..|stack| - 1], todo[..|todo| - 1], H, exp, T)
    ensures Work(todo[..|todo| - 1]) < Work(todo)
  {
    var f := stack[|stack| - 1];
    PopFrame(stack, todo, T);
    var j, restJ := todo[|todo| - 1], todo[..|todo| - 1];
    SplitLast(todo);
    IgnoredStep(H, exp, restJ, j);
    FramesPop(stack, todo, T);
    WorkShrinks(restJ, j, f.parent);
  }

  /** Replacing the frame of a root by the frames of its children, under the
      same parent report object, keeps the plan. */
  lemma RootPlan(stack: seq<Frame>, todo: seq<Job>, H: map<MailFolderConflictInfo, InfoState>,
                 exp: map<MailFolderConflictInfo, Report>, T: map<MailFolderNode, Tree>)
    returns (todo': seq<Job>)
    requires |stack| > 0 && Represents(T) && Plan(stack, todo, H, exp, T)
    requires !ShouldIgnore(stack[|stack| - 1].src.folder) && stack[|stack| - 1].src.isRoot
    ensures var f := stack[|stack| - 1];
      Plan(stack[..|stack| - 1] + PushedFrames(f.src, f.dest, f.parent), todo', H, exp, T)
    ensures Work(todo') < Work(todo)
  {
    var f := stack[|stack| - 1];
    PopFrame(stack, todo, T);
    var j, restJ := todo[|todo| - 1], todo[..|todo| - 1];
    SplitLast(todo);
    RootStep(H, exp, restJ, j);
    WorkShrinks(restJ, j, f.parent);
    FramesPush(stack, todo, f.parent, T);
    todo' := restJ + ChildJobs(j.src, j.dest, f.parent, |j.src.children|);
  }

  /** Appending the fresh report object `c` for the top frame under the
      frame's parent, and replacing the frame by the frames of its children
      under `c`, keeps the plan. */
  lemma ReportPlan(stack: seq<Frame>, todo: seq<Job>, H: map<MailFolderConflictInfo, InfoState>,
                   exp: map<MailFolderConflictInfo, Report>, T: map<MailFolderNode, Tree>, c: MailFolderConflictInfo,
                   stack': seq<Frame>)
    returns (todo': seq<Job>, exp': map<MailFolderConflictInfo, Report>)
    requires |stack| > 0 && Represents(T) && Plan(stack, todo, H, exp, T)
    requires FrameIn(stack[|stack| - 1], T) && c !in H
    requires var f := stack[|stack| - 1];
      && !ShouldIgnore(f.src.folder) && !f.src.isRoot
      && c.name == Name(f.src.folder) && c.infoType == Type(f.src.folder) && c.isSpecial == IsSpecial(f.src.folder)
      && TreeSize(T[f.src]) == c.rank < f.parent.rank
      && stack' == stack[..|stack| - 1] + PushedFrames(f.src, f.dest, c)
    ensures stack[|stack| - 1].parent in H
    ensures Plan(stack', todo', AddChild(H, stack[|stack| - 1].parent, c, stack[|stack| - 1].dest != null), exp', T)
    ensures exp'.Keys == exp.Keys + {c} && forall r :: r in exp ==> exp'[r] == exp[r]
    ensures Work(todo') < Work(todo)
  {
    var f := stack[|stack| - 1];
    PopFrame(stack, todo, T);
    var j, restJ := todo[|todo| - 1], todo[..|todo| - 1];
    assert j == JobOf(f, T);
    SplitLast(todo);
    ReportStep(H, exp, restJ, j, c);
    FramesPush(stack, todo, c, T);
    todo', exp' := restJ + ChildJobs(j.src, j.dest, c, |j.src.children|), exp[c := ReportOf(j)];
  }

  /** One round of compare's loop: pop a frame; skip it if its folder is
      ignored; otherwise add its report (none for a root) and push its children. */
  method CompareStep(stack: seq<Frame>, ghost todo: seq<Job>, ghost root: MailFolderConflictInfo,
                     ghost H: map<MailFolderConflictInfo, InfoState>,
                     ghost exp: map<MailFolderConflictInfo, Report>, ghost T: map<MailFolderNode, Tree>)
    returns (stack': seq<Frame>, ghost todo': seq<Job>, ghost H': map<MailFolderConflictInfo, InfoState>,
             ghost exp': map<MailFolderConflictInfo, Report>)
    requires |stack| > 0 && root in exp && Walking(stack, todo, H, exp, T)
    modifies H.Keys
    ensures fresh(H'.Keys - H.Keys) && root in exp' && exp'[root] == exp[root]
    ensures Walking(stack', todo', H', exp', T)
    ensures Work(todo') < Work(todo)
  {
    var f := stack[|stack| - 1];
    var rest := stack[..|stack| - 1];
    if ShouldIgnore(f.src.folder) {
      SkipPlan(stack, todo, H, exp, T);
      return rest, todo[..|todo| - 1], H, exp;
    }
    if !f.src.isRoot {
      TopFrame(stack, todo, H, exp, T);
      stack', todo', H', exp' := AddReport(stack, todo, root, H, exp, T);
      return;
    }
    todo' := RootPlan(stack, todo, H, exp, T);
    stack' := PushChildren(rest, f.src, f.dest, f.parent, H, T);
    H', exp' := H, exp;
  }

  /** The rest of compare's loop for a folder that is neither ignored nor a
      root: report it under the frame's parent, then push its children. */
  method AddReport(stack: seq<Frame>, ghost todo: seq<Job>, ghost root: MailFolderConflictInfo,
                   ghost H: map<MailFolderConflictInfo, InfoState>,
                   ghost exp: map<MailFolderConflictInfo, Report>, ghost T: map<MailFolderNode, Tree>)
    returns (stack': seq<Frame>, ghost todo': seq<Job>, ghost H': map<MailFolderConflictInfo, InfoState>,
             ghost exp': map<MailFolderConflictInfo, Report>)
    requires |stack| > 0 && root in exp && Walking(stack, todo, H, exp, T)
    requires !ShouldIgnore(stack[|stack| - 1].src.folder) && !stack[|stack| - 1].src.isRoot
    modifies stack[|stack| - 1].parent
    ensures fresh(H'.Keys - H.Keys) && root in exp' && exp'[root] == exp[root]
    ensures Walking(stack', todo', H', exp', T)
    ensures Work(todo') < Work(todo)
  {
    var f := stack[|stack| - 1];
    var rest := stack[..|stack| - 1];
    TopFrame(stack, todo, H, exp, T);
    var clone;
    clone, H' := AddClone(f.parent, f.src, f.dest != null, TreeSize(T[f.src]), H, T);
    stack' := PushChildren(rest, f.src, f.dest, clone, H', T);
    todo', exp' := ReportPlan(stack, todo, H, exp, T, clone, stack');
  }

  /** Makes the report object for `src` and appends it to `p`'s children;
      when the folder has a counterpart in the destination, flags it and
      counts it against `p`. */
  method AddClone(p: MailFolderConflictInfo, src: MailFolderNode, flagged: bool, ghost rank: nat,
                  ghost H: map<MailFolderConflictInfo, InfoState>, ghost T: map<MailFolderNode, Tree>)
    returns (clone: MailFolderConflictInfo, ghost H': map<MailFolderConflictInfo, InfoState>)
    requires p in H && Linked(H) && Represents(T)
    modifies p
    ensures fresh(clone) && clone.rank == rank
    ensures clone.name == Name(src.folder) && clone.infoType == Type(src.folder) && clone.isSpecial == IsSpecial(src.folder)
    ensures H' == AddChild(H, p, clone, flagged) && fresh(H'.Keys - H.Keys)
    ensures Linked(H') && Represents(T)
  {
    clone := MailFolderConflictInfo.FromMailFolderNode(src, rank);
    if flagged {
      clone.conflict := true;
      p.conflicts := p.conflicts + 1;
    }
    p.children := p.children + [clone];
    LinkedStep(H, p, clone, flagged);
    H' := AddChild(H, p, clone, flagged);
  }

  /** Once the stack is empty every report object stands for the report the
      ghost map `exp` assigned it. */
  lemma {:induction false} FinishedInfo(H: map<MailFolderConflictInfo, InfoState>,
                                        exp: map<MailFolderConflictInfo, Report>, r: MailFolderConflictInfo)
    requires InfosOk(H, exp) && PendingOk(H, exp, []) && Linked(H) && r in H
    ensures InfoClosed(H.Keys)
    ensures AbsInfo(r, H.Keys) == exp[r]
    decreases r.rank
  {
    FinishedClosed(H, exp);
    var R := H.Keys;
    var e := exp[r];
    assert Expand(exp, H[r].children) == e.children by {
      assert Expand(exp, H[r].children) + PendingFor([], r) == e.children;
    }
    forall i | 0 <= i < |r.children| ensures AbsInfo(r.children[i], R) == e.children[i] {
      FinishedInfo(H, exp, r.children[i]);
    }
    assert FieldOk(r, H[r], e);
    assert AbsInfo(r, R).children == e.children;
  }

  lemma FinishedClosed(H: map<MailFolderConflictInfo, InfoState>, exp: map<MailFolderConflictInfo, Report>)
    requires InfosOk(H, exp) && Linked(H)
    ensures InfoClosed(H.Keys)
  {
    forall r, i | r in H.Keys && 0 <= i < |r.children|
      ensures r.children[i] in H.Keys && r.children[i].rank < r.rank
    {
      assert r.children == H[r].children;
    }
  }

  /** The fields of the report Conflicts.Compare builds for the whole trees. */
  lemma CompareFields(src: Tree, dest: Option<Tree>)
    ensures var c := Compare(src, dest);
      c.name == Name(src.folder) && c.reportType == Type(src.folder) && c.isSpecial == IsSpecial(src.folder) &&
      !c.conflict && c.children == Emit(src, dest) && c.conflicts == CountConflicts(c.children)
  {
  }

  /** A report object just made for node `n`: its attributes, no flag, no
      children yet, and a rank above the size of the tree `n` stands for. */
  ghost predicate NewReport(r: MailFolderConflictInfo, n: MailFolderNode, T: map<MailFolderNode, Tree>)
    reads r
    requires n in T
  {
    r.name == Name(n.folder) && r.infoType == Type(n.folder) && r.isSpecial == IsSpecial(n.folder) &&
    !r.conflict && r.conflicts == 0 && r.children == [] && TreeSize(T[n]) < r.rank
  }

  /** The walk's state before the first round: one frame for the whole
      trees, and only the root report object, which will stand for the
      report Conflicts.Compare makes of them. */
  lemma Start(self: MailFolderNode, target: MailFolderNode?, root: MailFolderConflictInfo, T: map<MailFolderNode, Tree>)
    returns (H: map<MailFolderConflictInfo, InfoState>, exp: map<MailFolderConflictInfo, Report>)
    requires Represents(T) && self in T && (target != null ==> target in T) && NewReport(root, self, T)
    ensures H.Keys == {root} && root in exp && exp[root] == Compare(T[self], OptT(target, T))
    ensures Walking([Frame(self, target, root)], [Job(T[self], OptT(target, T), root)], H, exp, T)
  {
    var j := Job(T[self], OptT(target, T), root);
    assert NodeOk(T, self);
    H, exp := StartReports(j);
    assert FramesOk([Frame(self, target, root)], [j], T);
  }

  /** The snapshot and the expected reports for a job that has only its
      parent report object, which stands for the whole comparison. */
  lemma StartReports(j: Job) returns (H: map<MailFolderConflictInfo, InfoState>, exp: map<MailFolderConflictInfo, Report>)
    requires j.parent.name == Name(j.src.folder) && j.parent.infoType == Type(j.src.folder)
    requires j.parent.isSpecial == IsSpecial(j.src.folder)
    ensures H == map[j.parent := InfoState(false, 0, [])] && exp == map[j.parent := Compare(j.src, j.dest)]
    ensures InfosOk(H, exp) && PendingOk(H, exp, [j])
  {
    var top := Compare(j.src, j.dest);
    CompareFields(j.src, j.dest);
    H, exp := map[j.parent := InfoState(false, 0, [])], map[j.parent := top];
    assert PendingFor([j], j.parent) == top.children by {
      assert [j][..0] == [];
    }
    assert Expand(exp, H[j.parent].children) == [];
  }

  /** compare's loop, run until the stack is empty. */
  method Walk(stack: seq<Frame>, ghost todo: seq<Job>, ghost root: MailFolderConflictInfo,
              ghost H: map<MailFolderConflictInfo, InfoState>, ghost exp: map<MailFolderConflictInfo, Report>,
              ghost T: map<MailFolderNode, Tree>)
    returns (ghost H': map<MailFolderConflictInfo, InfoState>, ghost exp': map<MailFolderConflictInfo, Report>)
    requires root in exp && Walking(stack, todo, H, exp, T)
    modifies H.Keys
    ensures fresh(H'.Keys - H.Keys) && root in H'.Keys && InfoClosed(H'.Keys) && AbsInfo(root, H'.Keys) == exp[root]
  {
    var stack := stack;
    ghost var todo := todo;
    H', exp' := H, exp;
    while |stack| > 0
      invariant fresh(H'.Keys - H.Keys) && root in exp' && exp'[root] == exp[root]
      invariant Walking(stack, todo, H', exp', T)
      decreases Work(todo)
    {
      stack, todo, H', exp' := CompareStep(stack, todo, root, H', exp', T);
    }
    FinishedInfo(H', exp', root);
  }

  /** MailFolderNode.compare: walks the tree of `self` against the tree of
      `target` (when there is one) with a stack of frames, and returns the
      root of a tree of report objects that stands for Conflicts.Compare of
      the trees the two nodes stand for in the snapshot `T`. */
  method CompareNodes(self: MailFolderNode, target: MailFolderNode?, ghost T: map<MailFolderNode, Tree>)
    returns (root: MailFolderConflictInfo, ghost R: set<MailFolderConflictInfo>)
    requires Represents(T) && self in T && (target != null ==> target in T)
    ensures fresh(R) && root in R && InfoClosed(R)
    ensures AbsInfo(root, R) == Compare(T[self], OptT(target, T))
  {
    root := new MailFolderConflictInfo(Name(self.folder), Type(self.folder), IsSpecial(self.folder), TreeSize(T[self]) + 1);
    assert fresh(root) && NewReport(root, self, T);
    var stack := [Frame(self, target, root)];
    ghost var H0, exp0 := Start(self, target, root, T);
    ghost var H, exp := Walk(stack, [Job(T[self], OptT(target, T), root)], root, H0, exp0, T);
    assert fresh(H.Keys - H0.Keys);
    R := H.Keys;
  }
}
