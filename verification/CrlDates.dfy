/**
 * The dates of the CRLs of one issuer. The number of a CRL is that of the issuer row plus one, read
 * again for a second attempt; its date is the time the publisher took, once.
 */
module CrlDates {
  import opened Options
  import opened CrlPublisher

  ghost predicate InOrder(history: seq<Stored>) {
    forall i, j | 0 <= i < j < |history| :: history[i].crl.thisUpdate <= history[j].crl.thisUpdate
  }

  /**
   * A CRL is dated before one with a smaller number only if it was stored at the second attempt,
   * the other was stored after its publisher started, and the publisher was forced, or found the
   * CRL before its own due at the time it had taken, or found none.
   */
  lemma DatedInOrder(s: State, steps: seq<Step>, i: nat, j: nat)
    requires Init(s) && IsRun(s, steps) && i < j < |Run(s, steps).history|
    ensures var h := Run(s, steps).history;
            var x := h[j].author;
            || h[i].crl.thisUpdate <= h[j].crl.thisUpdate
            || (x.attempt == 2 && x.start <= i &&
                (x.force || x.current == None || h[j - 1].crl.nextUpdate <= h[j].crl.thisUpdate + x.renewal))
  {
    StoredIfDue(s, steps, j);
    RunInv(s, steps);
    assert Complete(Run(s, steps), j);
  }

  /**
   * A CRL dated before the CRL it follows, by a publisher that was not forced and whose renewal
   * is not longer than the expiry that CRL was signed with, follows a deleted CRL or one that was
   * cut to the end of the issuer.
   */
  lemma UnforcedBackdated(s: State, steps: seq<Step>, j: nat)
    requires Init(s) && IsRun(s, steps) && 0 < j < |Run(s, steps).history|
    requires var h := Run(s, steps).history;
             && h[j].crl.thisUpdate < h[j - 1].crl.thisUpdate
             && !h[j].author.force && h[j].author.renewal <= h[j - 1].author.expiry
    ensures var h := Run(s, steps).history;
            h[j].author.current == None || h[j - 1].crl.nextUpdate == s.notAfter
  {
    StoredIfDue(s, steps, j);
    StoredIfDue(s, steps, j - 1);
  }

  /* ---- A publisher that is alone is never refused ---- */

  /** The publishers go by the last number, at their first attempt. */
  predicate Unbeaten(s: State) {
    && (forall p, q | p in s.publishers && q in s.publishers :: p == q)
    && (forall p | p in s.publishers :: FirstAttempt(s, s.publishers[p]))
    && (forall i | 0 <= i < |s.history| :: s.history[i].author.attempt == 1)
  }

  predicate FirstAttempt(s: State, x: Publisher) {
    && !x.phase.Refused? && !x.phase.HasRowAgain? && (x.phase.Idle? || x.attempt == 1)
    && (HasNumber(x.phase) ==> x.behind == |s.history|)
  }

  lemma UnbeatenNext(base: nat, s: State, step: Step)
    requires Inv(base, s) && Unbeaten(s) && Enabled(s, step)
    ensures Unbeaten(Next(s, step))
  {
    hide Complete, Timely, GoodEntries, Covers, StillThere, IsPage;
    if step.By? {
      assert GoodPublisher(base, s, s.publishers[step.p]) && FirstAttempt(s, s.publishers[step.p]);
    }
  }

  lemma {:induction false} UnbeatenRun(base: nat, s: State, steps: seq<Step>)
    requires Inv(base, s) && Unbeaten(s) && IsRun(s, steps)
    ensures Unbeaten(Run(s, steps))
    decreases |steps|
  {
    hide Inv, Unbeaten;
    if steps != [] {
      InvNext(base, s, steps[0]);
      UnbeatenNext(base, s, steps[0]);
      UnbeatenRun(base, Next(s, steps[0]), steps[1..]);
    }
  }

  /* ---- No time is before the start of the run ---- */

  predicate Since(s: State, c: Time) {
    && c <= s.clock
    && (forall p | p in s.publishers :: TookTime(s.publishers[p].phase) ==> c <= s.publishers[p].now)
    && (forall i | 0 <= i < |s.history| :: c <= s.history[i].crl.thisUpdate)
  }

  lemma SinceNext(base: nat, s: State, step: Step, c: Time)
    requires Inv(base, s) && Since(s, c) && Enabled(s, step)
    ensures Since(Next(s, step), c)
  {
    hide Complete, GoodEntries, Covers, StillThere, IsPage, Behind, GoodAttempt;
    if step.By? {
      assert GoodPublisher(base, s, s.publishers[step.p]);
    }
  }

  lemma {:induction false} SinceRun(base: nat, s: State, steps: seq<Step>, c: Time)
    requires Inv(base, s) && Since(s, c) && IsRun(s, steps)
    ensures Since(Run(s, steps), c)
    decreases |steps|
  {
    hide Inv, Since;
    if steps != [] {
      InvNext(base, s, steps[0]);
      SinceNext(base, s, steps[0], c);
      SinceRun(base, Next(s, steps[0]), steps[1..], c);
    }
  }

  /* ---- A publisher that is overtaken ---- */

  /** The ids are the primary key of the revocations. */
  predicate UniqueIds(rows: set<Revocation>) {
    forall a, b | a in rows && b in rows && a.id == b.id :: a == b
  }

  lemma {:induction false} Newest(rows: set<Revocation>) returns (r: Revocation)
    requires rows != {}
    ensures r in rows && forall a | a in rows :: a.id <= r.id
    decreases |rows|
  {
    r :| r in rows;
    if rows != {r} {
      var r' := Newest(rows - {r});
      r := if r.id < r'.id then r' else r;
    }
  }

  lemma {:induction false} Listing(rows: set<Revocation>) returns (page: seq<Revocation>)
    requires UniqueIds(rows)
    ensures Descending(page) && forall r :: r in page <==> r in rows
    decreases |rows|
  {
    if rows == {} {
      page := [];
    } else {
      var r := Newest(rows);
      var rest := Listing(rows - {r});
      page := [r] + rest;
      assert forall i | 0 <= i < |rest| :: rest[i] in rest;
    }
  }

  /** The list can be read in one page. */
  lemma WholePage(rows: set<Revocation>, now: Time) returns (page: seq<Revocation>)
    requires UniqueIds(rows)
    ensures IsPage(rows, now, None, page, false)
  {
    page := Listing(set r | r in rows && r.notAfter > now);
  }

  /** All publishers of the run are forced, or none is. */
  predicate OfForce(steps: seq<Step>, force: bool) {
    forall step | step in steps :: StepOfForce(step, force)
  }

  predicate StepOfForce(step: Step, force: bool) {
    step.By? && step.action.ReadRow? ==> step.action.force == force
  }

  lemma {:induction false} RunMore(s: State, steps: seq<Step>, step: Step)
    requires IsRun(s, steps) && Enabled(Run(s, steps), step)
    ensures IsRun(s, steps + [step]) && Run(s, steps + [step]) == Next(Run(s, steps), step)
    decreases |steps|
  {
    hide Next, Enabled;
    if steps == [] {
      assert [step][1..] == [];
    } else {
      assert (steps + [step])[1..] == steps[1..] + [step];
      RunMore(Next(s, steps[0]), steps[1..], step);
    }
  }

  function With(s: State, p: nat, x: Publisher): State {
    s.(publishers := s.publishers[p := x])
  }

  /** One more step of any kind. */
  lemma Go(s: State, steps: seq<Step>, step: Step, force: bool) returns (more: seq<Step>)
    requires IsRun(s, steps) && OfForce(steps, force) && Enabled(Run(s, steps), step) && StepOfForce(step, force)
    ensures IsRun(s, more) && OfForce(more, force) && Run(s, more) == Next(Run(s, steps), step)
  {
    hide Enabled, Next;
    RunMore(s, steps, step);
    more := steps + [step];
  }

  /** One more action, other than a store. */
  lemma Act(s: State, steps: seq<Step>, p: nat, action: Action, force: bool) returns (more: seq<Step>)
    requires IsRun(s, steps) && OfForce(steps, force) && !action.Store?
    requires var t := Run(s, steps); p in t.publishers && CanDo(t, t.publishers[p], action)
    requires action.ReadRow? ==> action.force == force
    ensures IsRun(s, more) && OfForce(more, force)
    ensures var t := Run(s, steps); Run(s, more) == With(t, p, Advance(t, t.publishers[p], action))
  {
    hide IsRun, Run, CanDo, Advance;
    more := Go(s, steps, By(p, action), force);
  }

  /** A publisher starts: without a current CRL the issuer is due. */
  lemma Begin(s: State, steps: seq<Step>, p: nat, force: bool) returns (more: seq<Step>)
    requires IsRun(s, steps) && OfForce(steps, force)
    requires var t := Run(s, steps);
             && p in t.publishers && t.publishers[p].phase.Idle?
             && t.db.publishes && t.db.crl == None && t.clock < t.notAfter
    ensures IsRun(s, more) && OfForce(more, force)
    ensures var t := Run(s, steps);
            var n := |t.history|;
            Run(s, more) == With(t, p, Publisher(
              Collecting(t.db.number, None, []), force, 1, t.clock, t.notAfter, 1, None, t.db.revoked, n, n))
  {
    hide IsRun, Run, OfForce;
    var t := Run(s, steps);
    more := Act(s, steps, p, ReadRow(force), force);
    more := Act(s, more, p, ReadCurrent, force);
    more := Act(s, more, p, TakeTime(t.notAfter, 1), force);
  }

  /** A publisher collects its entries and signs a CRL. */
  lemma Issue(s: State, steps: seq<Step>, p: nat, force: bool) returns (more: seq<Step>, crl: Crl)
    requires IsRun(s, steps) && OfForce(steps, force)
    requires var t := Run(s, steps);
             && p in t.publishers && UniqueIds(t.db.revoked)
             && var x := t.publishers[p];
             && x.phase.Collecting? && x.phase.cursor == None && x.phase.entries == []
             && x.now < t.notAfter && x.expiry == 1
    ensures IsRun(s, more) && OfForce(more, force)
    ensures var t := Run(s, steps);
            var x := t.publishers[p];
            && Run(s, more) == With(t, p, x.(phase := Signed(x.phase.number, crl)))
            && crl.number == x.phase.number + 1 && crl.thisUpdate == x.now && crl.nextUpdate <= t.notAfter
  {
    hide IsRun, Run, OfForce, IsPage, UniqueIds;
    var t := Run(s, steps);
    var x := t.publishers[p];
    var page := WholePage(t.db.revoked, x.now);
    more := Act(s, steps, p, ReadPage(page, false), force);
    more := Act(s, more, p, Sign, force);
    crl := Crl(x.phase.number + 1, x.now, Min(x.now + x.expiry, t.notAfter), page);
    assert [] + page == page;
  }

  /** The publisher p takes the time, and q takes a later one and stores a CRL first. */
  lemma Overtaken(s: State, p: nat, q: nat, force: bool) returns (steps: seq<Step>)
    requires Init(s) && UniqueIds(s.db.revoked) && s.clock + 1 < s.notAfter
    requires p in s.publishers && q in s.publishers && p != q
    ensures IsRun(s, steps) && OfForce(steps, force)
    ensures var t := Run(s, steps);
            && t.notAfter == s.notAfter && t.db.publishes
            && t.db.number == s.db.number + 1 && t.db.revoked == s.db.revoked
            && t.db.crl.Some? && t.db.crl.value.nextUpdate <= s.notAfter
            && p in t.publishers && t.publishers[p] == Publisher(
              Collecting(s.db.number, None, []), force, 1, s.clock, s.notAfter, 1, None, s.db.revoked, 0, 0)
            && |t.history| == 1 && t.history[0].crl.thisUpdate == s.clock + 1
  {
    hide IsRun, Run, OfForce, UniqueIds, Advance;
    steps := NoSteps(s, force);
    steps := Go(s, steps, Around(SetStatus(true)), force);
    steps := Begin(s, steps, p, force);
    steps := Go(s, steps, Around(Tick(s.clock + 1)), force);
    steps := Begin(s, steps, q, force);
    var crl;
    steps, crl := Issue(s, steps, q, force);
    steps := Go(s, steps, By(q, Store), force);
  }

  /** The publisher p is refused and stores a CRL at its second attempt. */
  lemma Backdated(s: State, p: nat, q: nat, force: bool) returns (steps: seq<Step>)
    requires Init(s) && UniqueIds(s.db.revoked) && s.clock + 1 < s.notAfter
    requires p in s.publishers && q in s.publishers && p != q
    ensures IsRun(s, steps) && OfForce(steps, force)
    ensures var h := Run(s, steps).history;
            |h| == 2 && h[0].crl.thisUpdate == s.clock + 1 && h[1].crl.thisUpdate == s.clock
  {
    hide IsRun, Run, OfForce, UniqueIds;
    steps := Overtaken(s, p, q, force);
    var crl;
    steps, crl := Issue(s, steps, p, force);
    steps := Go(s, steps, By(p, Store), force);
    steps := Act(s, steps, p, ReadRowAgain, force);
    steps := Act(s, steps, p, ReadCurrentAgain, force);
    steps, crl := Issue(s, steps, p, force);
    steps := Go(s, steps, By(p, Store), force);
  }

  lemma NoSteps(s: State, force: bool) returns (steps: seq<Step>)
    ensures IsRun(s, steps) && OfForce(steps, force) && Run(s, steps) == s
  {
    steps := [];
  }

  /* ---- The exact condition ---- */

  lemma OneKey(m: map<nat, Publisher>, p: nat, q: nat)
    requires |m| <= 1 && p in m && q in m
    ensures p == q
  {
    assert |m.Keys - {p}| == |m.Keys| - 1;
  }

  lemma TwoKeys(m: map<nat, Publisher>) returns (p: nat, q: nat)
    requires |m| > 1
    ensures p in m && q in m && p != q
  {
    p :| p in m;
    assert |m.Keys - {p}| == |m.Keys| - 1;
    q :| q in m.Keys - {p};
  }

  /** No publisher can be overtaken by a later time: there is no other, or no later time. */
  predicate NoOvertaking(s: State) {
    |s.publishers| <= 1 || s.notAfter <= s.clock + 1
  }

  lemma OrderIfNoOvertaking(s: State, steps: seq<Step>)
    requires Init(s) && IsRun(s, steps) && NoOvertaking(s)
    ensures InOrder(Run(s, steps).history)
  {
    var h := Run(s, steps).history;
    forall i, j | 0 <= i < j < |h| ensures h[i].crl.thisUpdate <= h[j].crl.thisUpdate {
      if |s.publishers| <= 1 {
        forall p, q | p in s.publishers && q in s.publishers ensures p == q {
          OneKey(s.publishers, p, q);
        }
        UnbeatenRun(s.db.number, s, steps);
        DatedInOrder(s, steps, i, j);
      } else {
        SinceRun(s.db.number, s, steps, s.clock);
        CrlComplete(s, steps, i);
      }
    }
  }

  ghost predicate AlwaysInOrder(s: State) {
    forall steps | IsRun(s, steps) :: InOrder(Run(s, steps).history)
  }

  ghost predicate AlwaysInOrderOf(s: State, force: bool) {
    forall steps | IsRun(s, steps) && OfForce(steps, force) :: InOrder(Run(s, steps).history)
  }

  /**
   * The dates of the CRLs follow their numbers in every run exactly when there is one publisher
   * or no second time to take before the issuer ends; and it makes no difference whether all
   * publishers of a run are forced, none is, or some are.
   */
  lemma DatesFollowNumbers(s: State, force: bool)
    requires Init(s) && UniqueIds(s.db.revoked)
    ensures AlwaysInOrder(s) <==> NoOvertaking(s)
    ensures AlwaysInOrderOf(s, force) <==> NoOvertaking(s)
  {
    hide Init, UniqueIds, IsRun, Run, OfForce;
    if NoOvertaking(s) {
      forall steps | IsRun(s, steps) ensures InOrder(Run(s, steps).history) {
        OrderIfNoOvertaking(s, steps);
      }
    } else {
      var p, q := TwoKeys(s.publishers);
      var steps := Backdated(s, p, q, force);
      assert !InOrder(Run(s, steps).history);
    }
  }
}
