/** The policy gate's judgement of one file over a commit range (xtask/src/policy.rs). */
module Policy {
  import opened Options
  import opened Orders
  import opened Pairing
  import opened Text

  /** A parsed policy file. A TOML value with a NaN inside equals nothing, itself included. */
  datatype Value = Value(content: int, hasNan: bool)

  predicate ValueEq(a: Value, b: Value) { a == b && !a.hasNan }

  predicate Same(a: Option<Value>, b: Option<Value>)
  {
    match (a, b)
    case (None, None) => true
    case (Some(x), Some(y)) => ValueEq(x, y)
    case _ => false
  }

  datatype Step = Step(commit: string, approved: bool, value: Option<Value>, parents: seq<Option<Value>>)

  datatype History = History(base: Option<Value>, steps: seq<Step>, head: Option<Value>, tree: Option<Value>)

  datatype Reference = Base(value: Option<Value>) | Created(made: Value, commit: string) | SeveralCreations

  datatype Problem = Unapproved(commit: string) | NoCommitMadeHead | TreeChanged

  // ----- the parts

  /** A creation adds the file where every parent lacks it, a root commit included. */
  predicate IsCreation(step: Step)
  {
    step.value.Some? && forall i :: 0 <= i < |step.parents| ==> step.parents[i].None?
  }

  predicate Changed(step: Step)
  {
    forall i :: 0 <= i < |step.parents| ==> !Same(step.parents[i], step.value)
  }

  function Creations(steps: seq<Step>): seq<Step> { Filter(steps, IsCreation, true) }

  /** The base's version, or the version at the one commit that created the file. */
  function ReferenceOf(history: History): Reference
  {
    if history.base.Some? then Base(history.base)
    else
      var made := Creations(history.steps);
      if |made| == 0 then Base(None)
      else if |made| == 1 && made[0].value.Some? then Created(made[0].value.value, made[0].commit)
      else SeveralCreations
  }

  predicate Holds(reference: Reference, value: Option<Value>)
  {
    match reference
    case Base(expected) => Same(expected, value)
    case Created(made, _) => Same(Some(made), value)
    case SeveralCreations => false
  }

  predicate Exempt(reference: Reference, step: Step)
  {
    reference.Created? && step.commit == reference.commit
  }

  /** A commit that the judgement weighs. */
  predicate Counts(reference: Reference, step: Step) { !Exempt(reference, step) && Changed(step) }

  function Missing(reference: Reference): Step -> bool { (step: Step) => Counts(reference, step) && !step.approved }

  predicate MadeIn(reference: Reference, steps: seq<Step>, value: Option<Value>)
  {
    exists i :: 0 <= i < |steps| && Counts(reference, steps[i]) && Same(steps[i].value, value)
  }

  // ----- the judgement

  function Complaints(steps: seq<Step>): seq<Problem>
  {
    if steps == [] then [] else [Unapproved(steps[0].commit)] + Complaints(steps[1..])
  }

  /** What is wrong with HEAD. */
  function HeadProblems(history: History, reference: Reference): seq<Problem>
  {
    if Holds(reference, history.head) then []
    else
      Complaints(Filter(history.steps, Missing(reference), true)) +
      (if MadeIn(reference, history.steps, history.head) then [] else [NoCommitMadeHead])
  }

  function Problems(history: History): seq<Problem>
  {
    var reference := ReferenceOf(history);
    HeadProblems(history, reference) +
    (if !Same(history.tree, history.head) && !Holds(reference, history.tree) then [TreeChanged] else [])
  }

  /** The gate as it runs: collects the changes, then the complaints, then the two closing problems. */
  method Judge(history: History) returns (problems: seq<Problem>)
    ensures problems == Problems(history)
  {
    var reference := ReferenceOf(history);
    problems := [];
    if !Holds(reference, history.head) {
      var made := false;
      for i := 0 to |history.steps|
        invariant problems == Complaints(Filter(history.steps[..i], Missing(reference), true))
        invariant made <==> MadeIn(reference, history.steps[..i], history.head)
      {
        var step := history.steps[i];
        ComplaintNext(history.steps, i, reference);
        MadeNext(history.steps, i, reference, history.head);
        if Counts(reference, step) {
          if !step.approved {
            problems := problems + [Unapproved(step.commit)];
          }
          made := made || Same(step.value, history.head);
        }
      }
      assert history.steps[..|history.steps|] == history.steps;
      if !made {
        problems := problems + [NoCommitMadeHead];
      }
    }
    if !Same(history.tree, history.head) && !Holds(reference, history.tree) {
      problems := problems + [TreeChanged];
    }
  }

  lemma MadeNext(steps: seq<Step>, i: nat, reference: Reference, value: Option<Value>)
    requires i < |steps|
    ensures MadeIn(reference, steps[..i + 1], value) <==>
            MadeIn(reference, steps[..i], value) || (Counts(reference, steps[i]) && Same(steps[i].value, value))
  {
    var before, more := steps[..i], steps[..i + 1];
    assert |more| == i + 1 && more[i] == steps[i];
    assert forall k :: 0 <= k < i ==> before[k] == more[k];
  }

  lemma {:induction false} ComplaintsConcat(a: seq<Step>, b: seq<Step>)
    ensures Complaints(a + b) == Complaints(a) + Complaints(b)
  {
    if a == [] {
      assert a + b == b;
    } else {
      ComplaintsConcat(a[1..], b);
      assert (a + b)[0] == a[0] && (a + b)[1..] == a[1..] + b;
      Associate([Unapproved(a[0].commit)], Complaints(a[1..]), Complaints(b));
    }
  }

  lemma ComplaintNext(steps: seq<Step>, i: nat, reference: Reference)
    requires i < |steps|
    ensures Complaints(Filter(steps[..i + 1], Missing(reference), true)) ==
            Complaints(Filter(steps[..i], Missing(reference), true)) +
            (if Counts(reference, steps[i]) && !steps[i].approved then [Unapproved(steps[i].commit)] else [])
  {
    var key := Missing(reference);
    assert steps[..i + 1] == steps[..i] + [steps[i]];
    FilterConcat(steps[..i], [steps[i]], key, true);
    var last := Filter([steps[i]], key, true);
    assert last == if key(steps[i]) then [steps[i]] else [];
    ComplaintsConcat(Filter(steps[..i], key, true), last);
    assert Complaints([steps[i]]) == [Unapproved(steps[i].commit)] + Complaints([]);
  }

  // ----- the judgement by the fields of the history

  /** The commit gives the file a value and every parent lacks it. */
  ghost predicate CreatesAt(history: History, i: nat)
  {
    && i < |history.steps| && history.steps[i].value.Some?
    && forall p :: 0 <= p < |history.steps[i].parents| ==> history.steps[i].parents[p] == None
  }

  /** The base lacks the file and this one commit of all creates it. */
  ghost predicate SoleCreation(history: History, i: nat)
  {
    history.base == None && CreatesAt(history, i) && forall j: nat :: CreatesAt(history, j) ==> j == i
  }

  /** The value is the base's, the sole creation's, or none where the file never was; and equals itself. */
  ghost predicate Held(history: History, value: Option<Value>)
  {
    && (value.Some? ==> !value.value.hasNan)
    && (|| (history.base.Some? && value == history.base)
        || (history.base == None && value == None && forall j: nat :: !CreatesAt(history, j))
        || (exists i: nat :: SoleCreation(history, i) && value == history.steps[i].value))
  }

  /** The commit's value differs from each parent's, or holds a NaN; and it is not the sole creation. */
  ghost predicate Weighed(history: History, j: nat)
  {
    && j < |history.steps|
    && (forall p :: 0 <= p < |history.steps[j].parents| ==>
          history.steps[j].parents[p] != history.steps[j].value ||
          (history.steps[j].value.Some? && history.steps[j].value.value.hasNan))
    && forall i: nat :: SoleCreation(history, i) ==> history.steps[i].commit != history.steps[j].commit
  }

  lemma CreationsByFields(history: History)
    ensures forall i: nat :: i < |history.steps| ==> (IsCreation(history.steps[i]) <==> CreatesAt(history, i))
    ensures |Creations(history.steps)| == |set i: nat | i < |history.steps| && CreatesAt(history, i)|
  {
    CountIsPlaces(history.steps, IsCreation, true);
    assert PlacesOf(history.steps, IsCreation, true) == set i: nat | i < |history.steps| && CreatesAt(history, i);
  }

  lemma TwoInSet(s: set<nat>, i: nat, j: nat)
    requires i in s && j in s && i != j
    ensures |s| >= 2
  {
    assert {i, j} <= s;
    assert |s - {i, j}| >= 0 && s == (s - {i, j}) + {i, j};
  }

  /** The reference is the base, nothing, the sole creation, or none when there are several. */
  lemma ReferenceByFields(history: History)
    ensures history.base.Some? ==> ReferenceOf(history) == Base(history.base)
    ensures history.base == None && (forall j: nat :: !CreatesAt(history, j)) ==> ReferenceOf(history) == Base(None)
    ensures forall i: nat :: SoleCreation(history, i) ==>
              ReferenceOf(history) == Created(history.steps[i].value.value, history.steps[i].commit)
    ensures forall i: nat, j: nat ::
              history.base == None && CreatesAt(history, i) && CreatesAt(history, j) && i != j ==>
              ReferenceOf(history) == SeveralCreations
  {
    var made := set i: nat | i < |history.steps| && CreatesAt(history, i);
    CreationsByFields(history);
    forall i: nat | SoleCreation(history, i)
      ensures ReferenceOf(history) == Created(history.steps[i].value.value, history.steps[i].commit)
    {
      assert made == {i};
      var one := Creations(history.steps);
      FilterMembers(history.steps, IsCreation, true, one[0]);
      var k :| 0 <= k < |history.steps| && history.steps[k] == one[0];
      assert CreatesAt(history, k);
    }
    forall i: nat, j: nat | history.base == None && CreatesAt(history, i) && CreatesAt(history, j) && i != j
      ensures ReferenceOf(history) == SeveralCreations
    {
      TwoInSet(made, i, j);
    }
    if forall j: nat :: !CreatesAt(history, j) { assert made == {}; }
  }

  /** One of the four cases applies. */
  lemma CreationCases(history: History)
    ensures || history.base.Some?
            || (history.base == None && forall j: nat :: !CreatesAt(history, j))
            || (exists i: nat :: SoleCreation(history, i))
            || (history.base == None &&
                 exists i: nat, j: nat :: CreatesAt(history, i) && CreatesAt(history, j) && i != j)
  {
    if i: nat :| CreatesAt(history, i) {
      assert history.base == None && !SoleCreation(history, i) ==> exists j: nat :: CreatesAt(history, j) && j != i;
    }
  }

  lemma HeldExactly(history: History, value: Option<Value>)
    ensures Holds(ReferenceOf(history), value) <==> Held(history, value)
  {
    ReferenceByFields(history);
    CreationCases(history);
  }

  lemma WeighedExactly(history: History, j: nat)
    requires j < |history.steps|
    ensures Counts(ReferenceOf(history), history.steps[j]) <==> Weighed(history, j)
  {
    ReferenceByFields(history);
    CreationCases(history);
  }

  lemma {:induction false} ComplaintsHave(steps: seq<Step>, problem: Problem)
    ensures problem in Complaints(steps) <==>
            problem.Unapproved? && exists s :: s in steps && s.commit == problem.commit
  {
    if steps == [] {
    } else {
      ComplaintsHave(steps[1..], problem);
      assert forall s :: s in steps <==> s == steps[0] || s in steps[1..];
    }
  }

  /** A commit is complained of exactly when HEAD does not hold the reference and it is an unapproved
      change that is not the sole creation. */
  lemma UnapprovedExactly(history: History, commit: string)
    ensures Unapproved(commit) in Problems(history) <==>
            !Held(history, history.head) &&
            exists j: nat :: Weighed(history, j) && !history.steps[j].approved && history.steps[j].commit == commit
  {
    var reference, missing := ReferenceOf(history), Missing(ReferenceOf(history));
    var filtered := Filter(history.steps, missing, true);
    HeldExactly(history, history.head);
    ComplaintsHave(filtered, Unapproved(commit));
    forall s ensures s in filtered <==> s in history.steps && missing(s) {
      FilterMembers(history.steps, missing, true, s);
    }
    forall j: nat | j < |history.steps| ensures Counts(reference, history.steps[j]) <==> Weighed(history, j) {
      WeighedExactly(history, j);
    }
    if s :| s in filtered && s.commit == commit {
      var j :| 0 <= j < |history.steps| && history.steps[j] == s;
      assert Weighed(history, j);
    }
  }

  /** No commit made HEAD, exactly when HEAD does not hold the reference and no change gave its value. */
  lemma NotMadeExactly(history: History)
    ensures NoCommitMadeHead in Problems(history) <==>
            !Held(history, history.head) &&
            forall j: nat :: Weighed(history, j) ==>
              history.steps[j].value != history.head || (history.head.Some? && history.head.value.hasNan)
  {
    var reference := ReferenceOf(history);
    HeldExactly(history, history.head);
    ComplaintsHave(Filter(history.steps, Missing(reference), true), NoCommitMadeHead);
    forall j: nat | j < |history.steps| ensures Counts(reference, history.steps[j]) <==> Weighed(history, j) {
      WeighedExactly(history, j);
    }
  }

  /** The working tree is refused exactly when it neither equals HEAD nor holds the reference. */
  lemma TreeChangedExactly(history: History)
    ensures TreeChanged in Problems(history) <==>
            && (history.tree != history.head || (history.tree.Some? && history.tree.value.hasNan))
            && !Held(history, history.tree)
  {
    HeldExactly(history, history.tree);
    ComplaintsHave(Filter(history.steps, Missing(ReferenceOf(history)), true), TreeChanged);
  }

  // ----- what a clean judgement means

  /** Clean exactly when HEAD holds the reference, or each weighed commit is approved and one of them
      made HEAD's value; and the tree matches HEAD or the reference. */
  lemma CleanMeans(history: History)
    ensures var reference := ReferenceOf(history);
            Problems(history) == [] <==>
              && (Same(history.tree, history.head) || Holds(reference, history.tree))
              && (Holds(reference, history.head) ||
                  ((forall i :: 0 <= i < |history.steps| && Counts(reference, history.steps[i]) ==>
                      history.steps[i].approved)
                   && MadeIn(reference, history.steps, history.head)))
  {
    var reference := ReferenceOf(history);
    var missing := Filter(history.steps, Missing(reference), true);
    CountZero(history.steps, Missing(reference), true);
    assert Complaints(missing) == [] <==> missing == [];
    if missing == [] {
      forall i | 0 <= i < |history.steps| && Counts(reference, history.steps[i]) ensures history.steps[i].approved {
        assert !Missing(reference)(history.steps[i]);
      }
    }
  }

  /** A HEAD whose value equals nothing is never clean. */
  lemma NanHeadIsRefused(history: History)
    requires history.head.Some? && history.head.value.hasNan
    ensures Problems(history) != []
  {
  }

  // ----- the order of the commits

  lemma {:induction false} ComplaintsPermute(a: seq<Step>, b: seq<Step>)
    requires multiset(a) == multiset(b)
    ensures multiset(Complaints(a)) == multiset(Complaints(b))
    decreases |a|
  {
    SameLength(a, b);
    if a == [] {
    } else {
      assert a[0] in multiset(b);
      var i :| 0 <= i < |b| && b[i] == a[0];
      var front, back := b[..i], b[i + 1..];
      assert b == front + ([b[i]] + back);
      TailMultiset(a);
      ComplaintsPermute(a[1..], front + back);
      ComplaintsConcat(front, back);
      ComplaintsConcat(front, [b[i]] + back);
      assert ([b[i]] + back)[1..] == back;
    }
  }

  lemma ReferencePermute(h: History, g: History)
    requires h.base == g.base && multiset(h.steps) == multiset(g.steps)
    ensures ReferenceOf(h) == ReferenceOf(g)
  {
    FilterPermute(h.steps, g.steps, IsCreation, true);
    SameSingle(Creations(h.steps), Creations(g.steps));
  }

  lemma SameSingle(a: seq<Step>, b: seq<Step>)
    requires multiset(a) == multiset(b)
    ensures |a| == |b| && (|a| == 1 ==> a[0] == b[0])
  {
    SameLength(a, b);
    if |a| == 1 {
      assert a[0] in multiset(b) && a[0] in b;
    }
  }

  lemma MadePermute(reference: Reference, a: seq<Step>, b: seq<Step>, value: Option<Value>)
    requires multiset(a) == multiset(b) && MadeIn(reference, a, value)
    ensures MadeIn(reference, b, value)
  {
    var i :| 0 <= i < |a| && Counts(reference, a[i]) && Same(a[i].value, value);
    assert a[i] in multiset(b);
    var j :| 0 <= j < |b| && b[j] == a[i];
  }

  lemma MadeSame(reference: Reference, a: seq<Step>, b: seq<Step>, value: Option<Value>)
    requires multiset(a) == multiset(b)
    ensures MadeIn(reference, a, value) <==> MadeIn(reference, b, value)
  {
    if MadeIn(reference, a, value) { MadePermute(reference, a, b, value); }
    if MadeIn(reference, b, value) { MadePermute(reference, b, a, value); }
  }

  lemma HeadPermute(h: History, g: History, reference: Reference)
    requires h.head == g.head && multiset(h.steps) == multiset(g.steps)
    ensures multiset(HeadProblems(h, reference)) == multiset(HeadProblems(g, reference))
  {
    var a, b := Filter(h.steps, Missing(reference), true), Filter(g.steps, Missing(reference), true);
    FilterPermute(h.steps, g.steps, Missing(reference), true);
    ComplaintsPermute(a, b);
    MadeSame(reference, h.steps, g.steps, h.head);
  }

  /** Any order of the commits gives the same problems, so a merge's parent order decides nothing. */
  lemma OrderDoesNotMatter(h: History, g: History)
    requires h.base == g.base && h.head == g.head && h.tree == g.tree
    requires multiset(h.steps) == multiset(g.steps)
    ensures multiset(Problems(h)) == multiset(Problems(g))
    ensures Problems(h) == [] <==> Problems(g) == []
  {
    ReferencePermute(h, g);
    HeadPermute(h, g, ReferenceOf(h));
    SameLength(HeadProblems(h, ReferenceOf(h)), HeadProblems(g, ReferenceOf(h)));
  }

  // ----- linear histories

  /** The value before step `i`. */
  function Before(history: History, i: nat): Option<Value>
    requires i <= |history.steps|
  {
    if i == 0 then history.base else history.steps[i - 1].value
  }

  ghost predicate FollowsOn(history: History, i: nat)
    requires i < |history.steps|
  {
    history.steps[i].parents == [Before(history, i)]
  }

  /** One parent each, each on the step before it, from the base to HEAD; each commit once. */
  ghost predicate Linear(history: History)
  {
    && (forall i :: 0 <= i < |history.steps| ==> FollowsOn(history, i))
    && history.head == Before(history, |history.steps|)
    && (forall i, j :: 0 <= i < j < |history.steps| ==> history.steps[i].commit != history.steps[j].commit)
  }

  ghost predicate Comparable(value: Option<Value>) { value.Some? ==> !value.value.hasNan }

  lemma LinearStep(history: History, i: nat)
    requires Linear(history) && i < |history.steps|
    ensures Changed(history.steps[i]) <==> !Same(Before(history, i), history.steps[i].value)
    ensures IsCreation(history.steps[i]) <==> history.steps[i].value.Some? && Before(history, i).None?
  {
    assert FollowsOn(history, i) && history.steps[i].parents[0] == Before(history, i);
  }

  /** The last commit before `n` that changed the value made the value at `n`. */
  lemma {:induction false} LastChange(history: History, n: nat) returns (at: nat)
    requires Linear(history) && n <= |history.steps|
    requires exists k :: 0 <= k < n && Changed(history.steps[k])
    ensures at < n && Changed(history.steps[at]) && history.steps[at].value == Before(history, n)
    ensures forall k :: at < k < n ==> !Changed(history.steps[k])
  {
    LinearStep(history, n - 1);
    if Changed(history.steps[n - 1]) {
      at := n - 1;
    } else {
      at := LastChange(history, n - 1);
    }
  }

  lemma {:induction false} NoChange(history: History, n: nat)
    requires Linear(history) && n <= |history.steps|
    requires forall k :: 0 <= k < n ==> !Changed(history.steps[k])
    ensures Before(history, n) == history.base
  {
    if n == 0 {
    } else {
      LinearStep(history, n - 1);
      NoChange(history, n - 1);
    }
  }

  lemma {:induction false} NoCreation(history: History, n: nat)
    requires Linear(history) && n <= |history.steps|
    requires history.base.None? && forall k :: 0 <= k < n ==> !IsCreation(history.steps[k])
    ensures Before(history, n).None?
  {
    if n == 0 {
    } else {
      LinearStep(history, n - 1);
      NoCreation(history, n - 1);
    }
  }

  /** A HEAD without a NaN that is not the reference was made by a commit that the judgement weighs,
      whatever the commits before it hold. */
  lemma LinearHeadIsMade(history: History)
    requires Linear(history) && Comparable(history.head)
    requires !Holds(ReferenceOf(history), history.head)
    ensures MadeIn(ReferenceOf(history), history.steps, history.head)
  {
    var n, reference := |history.steps|, ReferenceOf(history);
    var made := Creations(history.steps);
    CountZero(history.steps, IsCreation, true);
    if history.base.None? && made == [] {
      forall k | 0 <= k < n ensures !IsCreation(history.steps[k]) { assert history.steps[k] in history.steps; }
      NoCreation(history, n);
    } else {
      var first: nat := 0;
      if history.base.None? {
        FilterMembers(history.steps, IsCreation, true, made[0]);
        first :| 0 <= first < n && history.steps[first] == made[0];
        LinearStep(history, first);
      } else if forall k :: 0 <= k < n ==> !Changed(history.steps[k]) {
        NoChange(history, n);
      }
      var at := LastChange(history, n);
      assert Same(history.steps[at].value, history.head);
      assert Counts(reference, history.steps[at]);
    }
  }

  // ----- what a NaN changes

  /** The commit's content differs from each parent's. */
  predicate Alters(step: Step) { forall i :: 0 <= i < |step.parents| ==> step.parents[i] != step.value }

  /** The commit keeps the content of a parent, and the content holds a NaN. */
  predicate KeepsNan(step: Step) { step.value.Some? && step.value.value.hasNan && !Alters(step) }

  /** A commit counts as a change exactly when it alters the content or keeps a NaN. */
  lemma ChangedExactly(step: Step)
    ensures Changed(step) <==> Alters(step) || KeepsNan(step)
  {
  }

  /** The content is that of the reference, whether or not it equals itself. */
  predicate IsReference(reference: Reference, value: Option<Value>)
  {
    match reference
    case Base(expected) => value == expected
    case Created(made, _) => value == Some(made)
    case SeveralCreations => false
  }

  ghost predicate Approved(history: History, weighed: Step -> bool)
  {
    var reference := ReferenceOf(history);
    forall i :: 0 <= i < |history.steps| && !Exempt(reference, history.steps[i]) && weighed(history.steps[i]) ==>
      history.steps[i].approved
  }

  /** What the verdict would be if every content equalled itself: HEAD is the reference, or each commit
      that alters the content, the exempt one aside, is approved. */
  ghost predicate CleanByContent(history: History)
  {
    IsReference(ReferenceOf(history), history.head) || Approved(history, Alters)
  }

  /** What a NaN adds to that: HEAD holds none and, unless HEAD is the reference, the commits that keep
      one are approved too. */
  ghost predicate NoNanRefused(history: History)
  {
    && Comparable(history.head)
    && (IsReference(ReferenceOf(history), history.head) || Approved(history, KeepsNan))
  }

  /** On every linear history whose tree is HEAD, the gate is clean exactly when it is clean by content
      and no NaN is refused. */
  lemma LinearClean(history: History)
    requires Linear(history) && history.tree == history.head
    ensures Problems(history) == [] <==> CleanByContent(history) && NoNanRefused(history)
  {
    LinearVerdict(history);
    var reference := ReferenceOf(history);
    forall i | 0 <= i < |history.steps|
      ensures Counts(reference, history.steps[i]) <==>
              !Exempt(reference, history.steps[i]) && (Alters(history.steps[i]) || KeepsNan(history.steps[i]))
    {
      ChangedExactly(history.steps[i]);
    }
  }

  lemma LinearVerdict(history: History)
    requires Linear(history) && history.tree == history.head
    ensures var reference := ReferenceOf(history);
            Problems(history) == [] <==>
              && Comparable(history.head)
              && (|| Holds(reference, history.head)
                  || (forall i :: 0 <= i < |history.steps| && Counts(reference, history.steps[i]) ==>
                        history.steps[i].approved))
  {
    CleanMeans(history);
    if !Comparable(history.head) {
      NanHeadIsRefused(history);
    } else if !Holds(ReferenceOf(history), history.head) {
      LinearHeadIsMade(history);
    }
  }

  /** One unapproved commit that keeps the base's content, then an approved one that replaces it. */
  function KeptThenReplaced(base: Value, head: Value): History
  {
    var first := Step("a", false, Some(base), [Some(base)]);
    var second := Step("b", true, Some(head), [Some(base)]);
    History(Some(base), [first, second], Some(head), Some(head))
  }

  /** A NaN before HEAD matters: that history is refused exactly when the kept content holds one. */
  lemma KeptNanIsRefused(base: Value, head: Value)
    requires !head.hasNan && base.content != head.content
    ensures var history := KeptThenReplaced(base, head);
            && Linear(history) && Comparable(history.head) && CleanByContent(history)
            && (Problems(history) == [] <==> !base.hasNan)
  {
    var history := KeptThenReplaced(base, head);
    assert history.steps[0].parents[0] == history.steps[0].value;
    assert KeepsNan(history.steps[0]) <==> base.hasNan;
    assert !KeepsNan(history.steps[1]);
    assert Approved(history, Alters);
    assert Approved(history, KeepsNan) <==> !base.hasNan;
    LinearClean(history);
  }
}
