/**
  Publication of an approved change as one local commit.  The index, the files, HEAD and every reference
  may change between any two Git calls; commits are addressed by content and never change.
 */
module Publication {
  import opened Contracts
  import opened Bytes
  import opened StableSorting
  import opened ChangeManifest
  import opened Steps

  datatype Commit = Root(tree: Snapshot, name: string) | Child(parent: Commit, tree: Snapshot, message: string)

  /** The task branch as registered, with the identity of its linked worktree. */
  datatype Registration = Registration(branch: string, identity: string)

  datatype Repo = Repo(
    refs: map<string, Commit>, head: string, index: Snapshot, files: Snapshot, ignored: string,
    registered: Option<Registration>)

  /** An observation of the worktree; `full` also covers the index. */
  datatype Binding = Binding(
    head: Commit, status: seq<Path>, diff: string, ignored: string, changed: seq<Record>, full: string)

  datatype CommitGate = CommitGate(commit: Option<Commit>, approvedDiff: string, stagedDiff: Option<string>, terminal: Binding)

  datatype Effect =
    | Stage
    | WriteObject(commit: Commit)
    | MoveRef(ref: string, from: Commit, to: Commit)

  /** `since` are the states the publisher looked at after its last commit object was written. */
  datatype Event = Event(effect: Effect, before: Repo, since: seq<Repo>)

  /** Git's renderings, of which only determinism is used. */
  datatype Rendering = Rendering(
    observe: Repo -> Option<Binding>,
    diff: (Snapshot, Snapshot) -> string,
    listing: (Snapshot, Snapshot) -> seq<Path>,
    folding: Folding)

  /** The name-only diff of two trees lists every path on which they differ. */
  ghost predicate Honest(g: Rendering) {
    forall a, b :: ListsChanges(a, b, g.listing(a, b))
  }

  function SameContentAs(b: Binding): Binding {
    b.(full := "")
  }

  /** What an engine is asked to publish: the approved binding, and the worktree it was taken from. */
  datatype Approval = Approval(binding: Binding, worktree: Snapshot, order: seq<Path>)

  /** The approved manifest is the one of the worktree at the moment of approval, over the base commit. */
  predicate Grounded(a: Approval, base: Commit) {
    && Recordable(base.tree, a.worktree, a.order)
    && a.binding.changed == Records(base.tree, a.worktree, a.order)
  }

  function ExactRef(branch: string): string {
    "refs/heads/" + branch
  }

  /** The four facts that are read again between writing the commit object and moving the reference. */
  predicate ShowsOwner(w: Repo, r: Registration) {
    w.registered == Some(r)
  }

  predicate ShowsBranch(w: Repo, branch: string, base: Commit) {
    ExactRef(branch) in w.refs && w.refs[ExactRef(branch)] == base
  }

  predicate ShowsIndex(w: Repo, tree: Snapshot) {
    w.index == tree
  }

  predicate ShowsPatch(g: Rendering, w: Repo, diff: string) {
    w.head in w.refs && g.diff(w.refs[w.head].tree, w.index) == diff
  }

  predicate SawOwner(since: seq<Repo>, r: Registration, base: Commit) {
    && (exists i :: 0 <= i < |since| && ShowsOwner(since[i], r))
    && (exists i :: 0 <= i < |since| && ShowsBranch(since[i], r.branch, base))
  }

  predicate SawIndex(g: Rendering, since: seq<Repo>, tree: Snapshot, diff: string) {
    && (exists i :: 0 <= i < |since| && ShowsIndex(since[i], tree))
    && (exists i :: 0 <= i < |since| && ShowsPatch(g, since[i], diff))
  }

  lemma StillSeen(g: Rendering, a: seq<Repo>, b: seq<Repo>, r: Registration, base: Commit, tree: Snapshot, diff: string)
    requires a <= b
    ensures SawOwner(a, r, base) ==> SawOwner(b, r, base)
    ensures SawIndex(g, a, tree, diff) ==> SawIndex(g, b, tree, diff)
  {
    forall i | 0 <= i < |a| ensures a[i] == b[i] { }
    if SawOwner(a, r, base) {
      var i :| 0 <= i < |a| && ShowsOwner(a[i], r);
      var j :| 0 <= j < |a| && ShowsBranch(a[j], r.branch, base);
      assert ShowsOwner(b[i], r) && ShowsBranch(b[j], r.branch, base);
    }
    if SawIndex(g, a, tree, diff) {
      var i :| 0 <= i < |a| && ShowsIndex(a[i], tree);
      var j :| 0 <= j < |a| && ShowsPatch(g, a[j], diff);
      assert ShowsIndex(b[i], tree) && ShowsPatch(g, b[j], diff);
    }
  }

  /** The only reference mutation there may be, and what was read again before it. */
  predicate Safe(g: Rendering, e: Event, r: Registration, base: Commit, a: Approval) {
    match e.effect
    case Stage => true
    case WriteObject(_) => true
    case MoveRef(ref, from, to) =>
      && ref == ExactRef(r.branch) && from == base
      && ref in e.before.refs && e.before.refs[ref] == base
      && to.Child? && to.parent == base
      && SawOwner(e.since, r, base) && SawIndex(g, e.since, to.tree, a.binding.diff)
      && g.diff(base.tree, to.tree) == a.binding.diff
      && to.tree == Overlay(base.tree, a.worktree, a.order)
  }

  predicate AllSafe(g: Rendering, log: seq<Event>, from: nat, r: Registration, base: Commit, a: Approval) {
    forall k {:trigger Safe(g, log[k], r, base, a)} :: from <= k < |log| ==> Safe(g, log[k], r, base, a)
  }

  function Moves(log: seq<Event>): nat {
    if |log| == 0 then 0 else Moves(log[..|log| - 1]) + if log[|log| - 1].effect.MoveRef? then 1 else 0
  }

  lemma MovesAppend(log: seq<Event>, e: Event)
    ensures Moves(log + [e]) == Moves(log) + if e.effect.MoveRef? then 1 else 0
  {
  }

  /** The last mutation of the log moved a reference to the commit, and it was the only such move. */
  predicate Published(before: seq<Event>, log: seq<Event>, commit: Commit) {
    && Moves(log) == Moves(before) + 1 && |log| > |before|
    && log[|log| - 1].effect.MoveRef? && log[|log| - 1].effect.to == commit
  }

  function Staged(w: Repo): Repo {
    w.(index := w.files)
  }

  /** Nothing is left to commit, and nothing that is ignored changed. */
  predicate Clean(b: Binding, commit: Commit, approved: Binding) {
    b.head == commit && |b.status| == 0 && b.diff == "" && b.ignored == approved.ignored
  }

  class Publisher {
    const g: Rendering
    const branch: string
    const registration: Registration
    const base: Commit
    const maxBytes: nat
    const maxFiles: nat
    ghost const approval: Approval
    var repo: Repo
    var peers: bool
    ghost var log: seq<Event>
    ghost var since: seq<Repo>

    ghost predicate Valid()
      reads this
    {
      Honest(g) && registration.branch == branch && Grounded(approval, base)
    }

    constructor (g: Rendering, registration: Registration, base: Commit, ghost approval: Approval, repo: Repo, peers: bool,
                 maxBytes: nat, maxFiles: nat)
      requires Honest(g) && Grounded(approval, base)
      ensures Valid() && this.repo == repo && this.peers == peers && log == []
      ensures this.registration == registration && this.base == base && this.approval == approval && this.g == g
    {
      this.g, this.registration, this.branch, this.base, this.approval := g, registration, registration.branch, base, approval;
      this.repo, this.peers, this.maxBytes, this.maxFiles := repo, peers, maxBytes, maxFiles;
      log, since := [], [];
    }

    /** The repository as the next Git call finds it. */
    method Look() returns (r: Reply<Repo>)
      modifies this`repo, this`since
      ensures old(since) <= since
      ensures !peers ==> repo == old(repo) && r.Ok?
      ensures r.Ok? ==> r.value == repo && since == old(since) + [repo]
      ensures r.Ok? || r.Raised?
    {
      if peers {
        repo := Foreigner();
        var fails: bool := Foreigner();
        if fails { return Raised; }
      }
      since := since + [repo];
      return Ok(repo);
    }

    // -------------------------------------------------------------- observations

    method ReadBinding() returns (r: Reply<Binding>)
      modifies this`repo, this`since
      ensures r.Ok? || r.Raised?
      ensures !peers ==> repo == old(repo) && (r.Ok? <==> g.observe(repo).Some?) && (r.Ok? ==> r.value == g.observe(repo).value)
    {
      var w :- Look();
      var seen := g.observe(w);
      if seen.None? { return Raised; }
      var changed := seen.value.changed;
      w :- Look();
      seen := g.observe(w);
      if seen.None? { return Raised; }
      var full := seen.value.full;
      w :- Look();
      seen := g.observe(w);
      if seen.None? { return Raised; }
      var head := seen.value.head;
      w :- Look();
      seen := g.observe(w);
      if seen.None? { return Raised; }
      var status := seen.value.status;
      w :- Look();
      seen := g.observe(w);
      if seen.None? { return Raised; }
      var diff := seen.value.diff;
      w :- Look();
      seen := g.observe(w);
      if seen.None? { return Raised; }
      return Ok(Binding(head, status, diff, seen.value.ignored, changed, full));
    }

    /** Two equal observations in a row, within three tries. */
    method CaptureBinding() returns (r: Reply<Binding>)
      modifies this`repo, this`since
      ensures r.Ok? || r.Raised?
      ensures !peers ==> repo == old(repo) && (r.Ok? <==> g.observe(repo).Some?) && (r.Ok? ==> r.value == g.observe(repo).value)
    {
      var tries := 0;
      while tries < 3
        invariant tries <= 3
        invariant !peers ==> repo == old(repo) && (tries == 0)
      {
        var first :- ReadBinding();
        var second :- ReadBinding();
        if first == second { return Ok(first); }
        tries := tries + 1;
      }
      return Raised;
    }

    /** The registered owner, HEAD and branch are all exactly as expected; three separate reads. */
    method AssertOwnedBranchHead(expected: Commit) returns (r: Reply<string>)
      modifies this`repo, this`since
      ensures old(since) <= since
      ensures r.Ok? || r.Raised?
      ensures r.Ok? ==> r.value == ExactRef(branch) && registration.branch == branch && SawOwner(since, registration, expected)
      ensures !peers ==> repo == old(repo)
      ensures !peers ==> (r.Ok? <==>
                && repo.registered == Some(registration) && registration.branch == branch
                && repo.head == ExactRef(branch) && repo.head in repo.refs && repo.refs[repo.head] == expected)
    {
      var w :- Look();
      if w.registered != Some(registration) || registration.branch != branch { return Raised; }
      ghost var owner := |since| - 1;
      assert ShowsOwner(since[owner], registration);
      var exact := ExactRef(registration.branch);
      w :- Look();
      var symbolic := w.head;
      w :- Look();
      if w.head !in w.refs { return Raised; }
      var head := w.refs[w.head];
      w :- Look();
      if exact !in w.refs { return Raised; }
      var refHead := w.refs[exact];
      if symbolic != exact || head != expected || refHead != expected { return Raised; }
      assert ShowsOwner(since[owner], registration) && ShowsBranch(since[|since| - 1], branch, expected);
      return Ok(exact);
    }

    /** The index writes the expected tree and renders the approved diff; two separate reads. */
    method AssertExactVerifiedIndex(expectedTree: Snapshot, approvedDiff: string) returns (r: Reply<()>)
      modifies this`repo, this`since
      ensures old(since) <= since
      ensures r.Ok? || r.Raised?
      ensures !peers ==> repo == old(repo)
      ensures r.Ok? ==> SawIndex(g, since, expectedTree, approvedDiff)
      ensures !peers ==> (r.Ok? <==>
                && repo.head in repo.refs && repo.index == expectedTree
                && g.diff(repo.refs[repo.head].tree, repo.index) == approvedDiff)
    {
      var w :- Look();
      var tree := w.index;
      ghost var indexed := |since| - 1;
      w :- Look();
      if w.head !in w.refs { return Raised; }
      var staged := g.diff(w.refs[w.head].tree, w.index);
      if tree != expectedTree || staged != approvedDiff { return Raised; }
      assert ShowsIndex(since[indexed], expectedTree) && ShowsPatch(g, since[|since| - 1], approvedDiff);
      return Ok(());
    }

    // -------------------------------------------------------------- the guarded update

    /** The sole reference mutation: Git compares the old value at the instant of the update. */
    method MoveRef(ref: string, from: Commit, to: Commit) returns (r: Reply<()>)
      requires ref == ExactRef(branch) && from == base && to.Child? && to.parent == base
      requires g.diff(base.tree, to.tree) == approval.binding.diff
      requires to.tree == Overlay(base.tree, approval.worktree, approval.order)
      requires registration.branch == branch
      requires SawOwner(since, registration, base) && SawIndex(g, since, to.tree, approval.binding.diff)
      modifies this`repo, this`since, this`log
      ensures r.Ok? || r.Raised?
      ensures r.Ok? <==> log != old(log)
      ensures old(log) <= log && AllSafe(g, log, |old(log)|, registration, base, approval)
      ensures r.Ok? ==> |log| == |old(log)| + 1 && log[|old(log)|].effect == Effect.MoveRef(ref, from, to)
      ensures Moves(log) == Moves(old(log)) + if r.Ok? then 1 else 0
      ensures !peers && ref in old(repo).refs && old(repo).refs[ref] == from ==>
                r.Ok? && repo == old(repo).(refs := old(repo).refs[ref := to])
    {
      ghost var checked := since;
      var w :- Look();
      if ref !in w.refs || w.refs[ref] != from { return Raised; }
      MovesAppend(log, Event(Effect.MoveRef(ref, from, to), repo, checked));
      log := log + [Event(Effect.MoveRef(ref, from, to), repo, checked)];
      repo := w.(refs := w.refs[ref := to]);
      return Ok(());
    }

    /** The unreachable commit carries the approved patch and the approved manifest, so the approved tree. */
    method VerifyObject(commit: Commit, expectedTree: Snapshot, approved: Binding) returns (r: Reply<()>)
      requires Valid() && commit.Child? && commit.parent == base && commit.tree == expectedTree
      requires approved == approval.binding
      modifies this`repo, this`since
      ensures r.Ok? || r.Raised?
      ensures r.Ok? ==> g.diff(base.tree, commit.tree) == approved.diff
      ensures r.Ok? ==> commit.tree == Overlay(base.tree, approval.worktree, approval.order)
      ensures !peers ==> repo == old(repo) && (r.Ok? <==> Verifiable(commit, approved))
    {
      var _ :- Look();
      var tree := commit.tree;
      var _ :- Look();
      var diff := g.diff(base.tree, commit.tree);
      var _ :- Look();
      var content := ScanCommitChangedContent(g.folding, base.tree, commit.tree, g.listing(base.tree, commit.tree), maxBytes, maxFiles);
      if content.None? { return Raised; }
      if tree != expectedTree || diff != approved.diff || content.value != approved.changed { return Raised; }
      Pinned(commit);
      return Ok(());
    }

    /** When the checks of an unreachable commit succeed. */
    ghost predicate Verifiable(commit: Commit, approved: Binding)
    {
      var listed := g.listing(base.tree, commit.tree);
      var order := StableSort(g.folding, listed);
      && g.diff(base.tree, commit.tree) == approved.diff
      && |listed| <= maxFiles && NoRepetition(listed) && Recordable(base.tree, commit.tree, order)
      && Size(Records(base.tree, commit.tree, order)) <= maxBytes
      && Records(base.tree, commit.tree, order) == approved.changed
    }

    lemma Pinned(commit: Commit)
      requires Valid() && commit.Child? && commit.parent == base
      requires Verifiable(commit, approval.binding)
      ensures commit.tree == Overlay(base.tree, approval.worktree, approval.order)
    {
      var listed := g.listing(base.tree, commit.tree);
      var order := StableSort(g.folding, listed);
      assert ListsChanges(base.tree, commit.tree, listed);
      forall p ensures p in order <==> p in listed { SortMembers(g.folding, listed, p); }
      ApprovedManifestPinsTree(base.tree, approval.worktree, commit.tree, approval.order, order);
    }

    method CommitTree(tree: Snapshot, message: string) returns (r: Reply<Commit>)
      modifies this`repo, this`since, this`log
      ensures r.Ok? || r.Raised?
      ensures r.Ok? ==> r.value == Child(base, tree, message)
      ensures old(log) <= log && Moves(log) == Moves(old(log)) && AllSafe(g, log, |old(log)|, registration, base, approval)
      ensures !peers ==> repo == old(repo) && r.Ok?
    {
      var _ :- Look();
      MovesAppend(log, Event(WriteObject(Child(base, tree, message)), repo, since));
      log := log + [Event(WriteObject(Child(base, tree, message)), repo, since)];
      since := [];
      return Ok(Child(base, tree, message));
    }

    /** Everything an undisturbed guarded commit of a tree needs. */
    ghost predicate Ready(w: Repo, tree: Snapshot, message: string) {
      && w.registered == Some(registration) && w.head == ExactRef(branch)
      && w.head in w.refs && w.refs[w.head] == base && w.index == tree
      && g.diff(base.tree, tree) == approval.binding.diff
      && Verifiable(Child(base, tree, message), approval.binding)
    }

    /** Publishes the approved index as one commit on the owned branch, or moves nothing it was not approved to move. */
    method CreateGuardedCommit(expectedTree: Snapshot, approved: Binding, message: string) returns (r: Reply<Commit>)
      requires Valid() && approved == approval.binding
      modifies this`repo, this`since, this`log
      ensures Valid() && (r.Ok? || r.Raised?)
      ensures old(log) <= log && AllSafe(g, log, |old(log)|, registration, base, approval)
      ensures Moves(old(log)) <= Moves(log) <= Moves(old(log)) + 1
      ensures r.Ok? ==> Published(old(log), log, r.value) && r.value == Child(base, expectedTree, message)
      ensures !peers && Ready(old(repo), expectedTree, message) ==>
                r.Ok? && repo == old(repo).(refs := old(repo).refs[ExactRef(branch) := r.value])
    {
      var commit :- PrepareCommit(expectedTree, approved, message);
      r := PublishPrepared(commit, approved);
    }

    /** Every mutable input once more. */
    method Revalidate(tree: Snapshot, diff: string) returns (r: Reply<string>)
      modifies this`repo, this`since
      ensures r.Ok? || r.Raised?
      ensures r.Ok? ==> r.value == ExactRef(branch) && registration.branch == branch
      ensures r.Ok? ==> SawOwner(since, registration, base) && SawIndex(g, since, tree, diff)
      ensures !peers ==> repo == old(repo)
      ensures (!peers && repo.registered == Some(registration) && registration.branch == branch
               && repo.head == ExactRef(branch) && repo.head in repo.refs && repo.refs[repo.head] == base
               && repo.index == tree && g.diff(base.tree, tree) == diff) ==> r.Ok?
    {
      var exact :- AssertOwnedBranchHead(base);
      ghost var owned := since;
      var _ :- AssertExactVerifiedIndex(tree, diff);
      StillSeen(g, owned, since, registration, base, tree, diff);
      return Ok(exact);
    }

    /** Revalidates every mutable input, then moves the owned branch to the proven commit. */
    method PublishPrepared(commit: Commit, approved: Binding) returns (r: Reply<Commit>)
      requires Valid() && approved == approval.binding && commit.Child? && commit.parent == base
      requires g.diff(base.tree, commit.tree) == approved.diff
      requires commit.tree == Overlay(base.tree, approval.worktree, approval.order)
      modifies this`repo, this`since, this`log
      ensures Valid() && (r.Ok? || r.Raised?)
      ensures old(log) <= log && AllSafe(g, log, |old(log)|, registration, base, approval)
      ensures Moves(old(log)) <= Moves(log) <= Moves(old(log)) + 1
      ensures r.Ok? ==> r.value == commit && Published(old(log), log, commit)
      ensures !peers && Ready(old(repo), commit.tree, commit.message) ==>
                r.Ok? && repo == old(repo).(refs := old(repo).refs[ExactRef(branch) := commit])
    {
      var exact :- Revalidate(commit.tree, approved.diff);
      var _ :- MoveRef(exact, base, commit);
      var _ :- Confirm(exact, commit);
      return Ok(commit);
    }

    /** An unreachable commit object, proven to be the approved one. */
    method PrepareCommit(expectedTree: Snapshot, approved: Binding, message: string) returns (r: Reply<Commit>)
      requires Valid() && approved == approval.binding
      modifies this`repo, this`since, this`log
      ensures Valid() && (r.Ok? || r.Raised?)
      ensures old(log) <= log && AllSafe(g, log, |old(log)|, registration, base, approval) && Moves(log) == Moves(old(log))
      ensures r.Ok? ==>
                && r.value == Child(base, expectedTree, message) && g.diff(base.tree, expectedTree) == approved.diff
                && expectedTree == Overlay(base.tree, approval.worktree, approval.order)
      ensures !peers ==> repo == old(repo) && (Ready(repo, expectedTree, message) ==> r.Ok?)
    {
      var _ :- AssertOwnedBranchHead(base);
      var _ :- AssertExactVerifiedIndex(expectedTree, approved.diff);
      var commit :- CommitTree(expectedTree, message);
      var _ :- VerifyObject(commit, expectedTree, approved);
      return Ok(commit);
    }

    /** After the update HEAD and the owned branch must show the commit. */
    method Confirm(exact: string, commit: Commit) returns (r: Reply<()>)
      modifies this`repo, this`since
      ensures r.Ok? || r.Raised?
      ensures !peers ==> repo == old(repo)
      ensures !peers && repo.head == exact && exact in repo.refs && repo.refs[exact] == commit ==> r.Ok?
    {
      var w :- Look();
      var symbolic := w.head;
      w :- Look();
      if w.head !in w.refs { return Raised; }
      var head := w.refs[w.head];
      w :- Look();
      if exact !in w.refs { return Raised; }
      if symbolic != exact || head != commit || w.refs[exact] != commit { return Raised; }
      return Ok(());
    }

    // -------------------------------------------------------------- the commit gate

    /** Stages everything that is not ignored. */
    method StageAll() returns (r: Reply<()>)
      modifies this`repo, this`since, this`log
      ensures r.Ok? || r.Raised?
      ensures old(log) <= log && Moves(log) == Moves(old(log)) && AllSafe(g, log, |old(log)|, registration, base, approval)
      ensures !peers ==> r.Ok? && repo == Staged(old(repo))
    {
      var w :- Look();
      MovesAppend(log, Event(Stage, repo, since));
      log := log + [Event(Stage, repo, since)];
      repo := Staged(w);
      return Ok(());
    }

    method StageApproved(approved: Binding) returns (r: Reply<Snapshot>)
      requires Valid() && approved == approval.binding
      modifies this`repo, this`since, this`log
      ensures r.Ok? || r.Raised?
      ensures old(log) <= log && Moves(log) == Moves(old(log)) && AllSafe(g, log, |old(log)|, registration, base, approval)
      ensures !peers && Publishable(old(repo), approved) ==> r == Ok(old(repo).files) && repo == Staged(old(repo))
    {
      var w :- Look();
      if w.head !in w.refs || w.refs[w.head] != base { return Raised; }
      w :- Look();
      var status := g.observe(w);
      if status.None? || |status.value.status| == 0 { return Raised; }
      var _ :- StageAll();
      var staged :- CaptureBinding();
      if SameContentAs(staged) != SameContentAs(approved) { return Raised; }
      w :- Look();
      if w.head !in w.refs { return Raised; }
      var diff := g.diff(w.refs[w.head].tree, w.index);
      if diff == "" || diff != approved.diff { return Raised; }
      w :- Look();
      return Ok(w.index);
    }

    /**
      The commit gate.  Without commit permission it mutates nothing.  With it, and whatever peers do in
      between, it moves a reference at most once, and then the owned branch from exactly the base to a
      commit whose tree is the base with exactly the approved changes; undisturbed, it succeeds.
     */
    method CommitApproved(localCommit: bool, review: Option<Review>, approved: Binding, message: string) returns (r: Reply<CommitGate>)
      requires Valid() && approved == approval.binding
      modifies this`repo, this`since, this`log
      ensures Valid() && (r.Ok? || r.Raised?)
      ensures old(log) <= log && AllSafe(g, log, |old(log)|, registration, base, approval)
      ensures Moves(old(log)) <= Moves(log) <= Moves(old(log)) + 1
      ensures !localCommit || review.None? || review.value.verdict != Approved ==> log == old(log)
      ensures r.Ok? && !localCommit ==> r.value == CommitGate(None, approved.diff, None, approved)
      ensures r.Ok? && localCommit ==>
                && review.Some? && review.value.verdict == Approved
                && r.value.commit.Some? && Published(old(log), log, r.value.commit.value)
                && r.value.stagedDiff == Some(approved.diff) && Clean(r.value.terminal, r.value.commit.value, approved)
      ensures !peers && !localCommit && g.observe(old(repo)) == Some(approved) ==> r.Ok? && repo == old(repo)
      ensures !peers && localCommit && review.Some? && review.value.verdict == Approved && PublishableTo(old(repo), approved, message) ==>
                r.Ok? && repo == Committed(old(repo), message)
    {
      var before :- CaptureBinding();
      if approved != before { return Raised; }
      if !localCommit { return Ok(CommitGate(None, approved.diff, None, before)); }
      if review.None? || review.value.verdict != Approved { return Raised; }
      var tree :- StageApproved(approved);
      var commit :- CreateGuardedCommit(tree, approved, message);
      var terminal :- ConfirmClean(commit, approved);
      return Ok(CommitGate(Some(commit), approved.diff, Some(approved.diff), terminal));
    }

    method ConfirmClean(commit: Commit, approved: Binding) returns (r: Reply<Binding>)
      modifies this`repo, this`since
      ensures r.Ok? || r.Raised?
      ensures r.Ok? ==> Clean(r.value, commit, approved)
      ensures !peers ==> repo == old(repo)
      ensures !peers && g.observe(repo).Some? && Clean(g.observe(repo).value, commit, approved) ==> r.Ok?
    {
      var w :- Look();
      var status := g.observe(w);
      if status.None? || |status.value.status| != 0 { return Raised; }
      var terminal :- CaptureBinding();
      if !Clean(terminal, commit, approved) { return Raised; }
      return Ok(terminal);
    }

    ghost predicate Publishable(w: Repo, approved: Binding) {
      && g.observe(w) == Some(approved) && |approved.status| > 0 && approved.diff != ""
      && w.head in w.refs && w.refs[w.head] == base
      && g.observe(Staged(w)).Some? && SameContentAs(g.observe(Staged(w)).value) == SameContentAs(approved)
      && g.diff(base.tree, w.files) == approved.diff
    }

    ghost function Committed(w: Repo, message: string): Repo {
      Staged(w).(refs := w.refs[ExactRef(branch) := Child(base, w.files, message)])
    }

    ghost predicate PublishableTo(w: Repo, approved: Binding, message: string) {
      && Publishable(w, approved) && Ready(Staged(w), w.files, message)
      && g.observe(Committed(w, message)).Some?
      && Clean(g.observe(Committed(w, message)).value, Child(base, w.files, message), approved)
    }
  }
}
