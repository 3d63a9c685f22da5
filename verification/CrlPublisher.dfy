/**
 * Publishing the CRLs of one issuer: any number of publishers, each a sequence of reads and one
 * transaction, interleaved with revocations, the deletion of expired certificates, changes of the
 * issuer and the clock. The key of every step is the database statement the code issues.
 */
module CrlPublisher {
  import opened Options

  type Time = nat

  /** A revoked certificate of the issuer; id is the primary key the lists are paged by. */
  datatype Revocation = Revocation(id: nat, serial: int, notAfter: Time)

  datatype Crl = Crl(number: nat, thisUpdate: Time, nextUpdate: Time, entries: seq<Revocation>)

  /** The rows of the issuer: whether its status publishes CRLs, its CRL number, CRL and revocations. */
  datatype Db = Db(publishes: bool, number: nat, crl: Option<Crl>, revoked: set<Revocation>)

  datatype Outcome = Published | Kept | NotActive | Expired | StaleNumber | Failed

  /** Where a publisher is; number is the CRL number of the issuer row it read. */
  datatype Phase =
    | Idle
    | HasRow(number: nat)
    | HasCurrent(number: nat)
    | Collecting(number: nat, cursor: Option<nat>, entries: seq<Revocation>)
    | Collected(number: nat, entries: seq<Revocation>)
    | Signed(number: nat, crl: Crl)
    | Refused
    | HasRowAgain(number: nat)
    | Done(outcome: Outcome)

  /**
   * A publisher: its attempt, the time and the settings it took, which stay for both attempts, the
   * current CRL it read last, and, for the record, the revocations and the number of stored CRLs
   * when it read the issuer row, in this attempt and in the first.
   */
  datatype Publisher = Publisher(
    phase: Phase,
    force: bool,
    attempt: nat,
    now: Time,
    renewal: Time,
    expiry: Time,
    current: Option<Crl>,
    seen: set<Revocation>,
    behind: nat,
    start: nat)

  /** A CRL that was stored, its publisher at that time, and when it was stored. */
  datatype Stored = Stored(crl: Crl, author: Publisher, at: Time)

  datatype State = State(clock: Time, notAfter: Time, db: Db, publishers: map<nat, Publisher>, history: seq<Stored>)

  /** What happens around the publishers. */
  datatype Event =
    | Tick(to: Time)
    | Revoke(r: Revocation)
    | DeleteExpired(gone: set<Revocation>)
    | SetStatus(publishes: bool)
    | DeleteCrl

  /** What a publisher does. */
  datatype Action =
    | ReadRow(force: bool)
    | ReadCurrent
    | TakeTime(renewal: Time, expiry: Time)
    | ReadPage(page: seq<Revocation>, more: bool)
    | Sign
    | Store
    | ReadRowAgain
    | ReadCurrentAgain
    | Fail

  datatype Step = Around(event: Event) | By(p: nat, action: Action)

  const PUBLISH_ATTEMPTS := 2

  /* ---- The steps ---- */

  function CrlDue(current: Option<Crl>, renewal: Time, now: Time): bool {
    current.None? || current.value.nextUpdate <= now + renewal
  }

  /** The rows a page is cut from: valid after the time, past the cursor. */
  predicate Matches(r: Revocation, now: Time, cursor: Option<nat>) {
    r.notAfter > now && (cursor.None? || r.id < cursor.value)
  }

  predicate Descending(entries: seq<Revocation>) {
    forall i, j | 0 <= i < j < |entries| :: entries[i].id > entries[j].id
  }

  /** The page of a list by id, newest first; without more pages it is the whole rest. */
  predicate IsPage(rows: set<Revocation>, now: Time, cursor: Option<nat>, page: seq<Revocation>, more: bool) {
    && (forall r | r in page :: r in rows && Matches(r, now, cursor))
    && Descending(page)
    && (more ==> page != [])
    && (forall r | r in rows && Matches(r, now, cursor) :: r in page || (more && r.id < page[|page| - 1].id))
  }

  predicate Enabled(s: State, step: Step) {
    match step
    case Around(Tick(to)) => s.clock <= to
    case Around(DeleteExpired(gone)) => forall r | r in gone :: r.notAfter < s.clock
    case Around(_) => true
    case By(p, action) => p in s.publishers && CanDo(s, s.publishers[p], action)
  }

  predicate CanDo(s: State, x: Publisher, action: Action) {
    match action
    case ReadRow(_) => x.phase.Idle? || x.phase.Done?
    case ReadCurrent => x.phase.HasRow?
    case TakeTime(_, _) => x.phase.HasCurrent?
    case ReadPage(page, more) => x.phase.Collecting? && IsPage(s.db.revoked, x.now, x.phase.cursor, page, more)
    case Sign => x.phase.Collected?
    case Store => x.phase.Signed?
    case ReadRowAgain => x.phase.Refused?
    case ReadCurrentAgain => x.phase.HasRowAgain?
    case Fail => !x.phase.Idle? && !x.phase.Done?
  }

  function Min(a: nat, b: nat): nat {
    if a < b then a else b
  }

  /** The publisher after its action. */
  function Advance(s: State, x: Publisher, action: Action): Publisher
    requires CanDo(s, x, action)
  {
    match action
    case ReadRow(force) =>
      var phase := if s.db.publishes then HasRow(s.db.number) else Done(NotActive);
      Publisher(phase, force, 1, 0, 0, 0, None, s.db.revoked, |s.history|, |s.history|)
    case ReadCurrent => x.(phase := HasCurrent(x.phase.number), current := s.db.crl)
    case TakeTime(renewal, expiry) =>
      var x' := x.(now := s.clock, renewal := renewal, expiry := expiry);
      if s.notAfter <= s.clock then x'.(phase := Done(Expired))
      else if !x.force && !CrlDue(x.current, renewal, s.clock) then x'.(phase := Done(Kept))
      else x'.(phase := Collecting(x.phase.number, None, []))
    case ReadPage(page, more) =>
      var entries := x.phase.entries + page;
      if more then x.(phase := Collecting(x.phase.number, Some(page[|page| - 1].id), entries))
      else x.(phase := Collected(x.phase.number, entries))
    case Sign =>
      var next := Min(x.now + x.expiry, s.notAfter);
      if next <= x.now then x.(phase := Done(Expired))
      else x.(phase := Signed(x.phase.number, Crl(x.phase.number + 1, x.now, next, x.phase.entries)))
    case Store =>
      if x.phase.crl.number > s.db.number then x.(phase := Done(Published))
      else if x.attempt < PUBLISH_ATTEMPTS then x.(phase := Refused)
      else x.(phase := Done(StaleNumber))
    case ReadRowAgain =>
      if !s.db.publishes then x.(phase := Done(NotActive))
      else x.(phase := HasRowAgain(s.db.number), seen := s.db.revoked, behind := |s.history|)
    case ReadCurrentAgain =>
      var x' := x.(current := s.db.crl);
      if !x.force && !CrlDue(s.db.crl, x.renewal, x.now) then x'.(phase := Done(Kept))
      else x'.(phase := Collecting(x.phase.number, None, []), attempt := x.attempt + 1)
    case Fail => x.(phase := Done(Failed))
  }

  /** The transaction of PublishCrl: the number and the CRL, if the number is greater. */
  function StoreCrl(s: State, x: Publisher): State
    requires x.phase.Signed?
  {
    var crl := x.phase.crl;
    if crl.number <= s.db.number then s
    else s.(db := s.db.(number := crl.number, crl := Some(crl)),
            history := s.history + [Stored(crl, x, s.clock)])
  }

  function Happen(s: State, event: Event): State {
    match event
    case Tick(to) => s.(clock := to)
    case Revoke(r) => s.(db := s.db.(revoked := s.db.revoked + {r}))
    case DeleteExpired(gone) => s.(db := s.db.(revoked := s.db.revoked - gone))
    case SetStatus(publishes) => s.(db := s.db.(publishes := publishes))
    case DeleteCrl => s.(db := s.db.(crl := None))
  }

  function Next(s: State, step: Step): State
    requires Enabled(s, step)
  {
    match step
    case Around(event) => Happen(s, event)
    case By(p, action) =>
      var x := s.publishers[p];
      var s' := if action.Store? then StoreCrl(s, x) else s;
      s'.(publishers := s'.publishers[p := Advance(s, x, action)])
  }

  predicate Init(s: State) {
    && s.history == [] && s.db.crl == None
    && forall p | p in s.publishers :: s.publishers[p].phase.Idle?
  }

  ghost predicate IsRun(s: State, steps: seq<Step>)
    decreases |steps|
  {
    steps == [] || (Enabled(s, steps[0]) && IsRun(Next(s, steps[0]), steps[1..]))
  }

  ghost function Run(s: State, steps: seq<Step>): State
    requires IsRun(s, steps)
    decreases |steps|
  {
    if steps == [] then s else Run(Next(s, steps[0]), steps[1..])
  }

  /* ---- The invariant ---- */

  /** The CRLs stored so far have consecutive numbers after base, the last of them that of the issuer. */
  predicate Numbered(base: nat, s: State) {
    && s.db.number == base + |s.history|
    && (forall i | 0 <= i < |s.history| :: s.history[i].crl.number == base + 1 + i)
    && (s.db.crl.Some? ==> s.history != [] && s.db.crl.value == s.history[|s.history| - 1].crl)
  }

  /** The rows that are still valid have not been deleted. */
  predicate StillThere(s: State, rows: set<Revocation>) {
    forall r | r in rows && r.notAfter > s.clock :: r in s.db.revoked
  }

  function Rows(entries: seq<Revocation>): set<Revocation> {
    set r | r in entries
  }

  predicate GoodEntries(s: State, now: Time, entries: seq<Revocation>) {
    && Descending(entries)
    && (forall r | r in entries :: r.notAfter > now)
    && StillThere(s, Rows(entries))
  }

  /** What the publisher had seen, and is still valid, is in the entries or past the cursor. */
  predicate Covers(s: State, seen: set<Revocation>, entries: seq<Revocation>, cursor: Option<nat>) {
    forall r | r in seen && r.notAfter > s.clock :: r in entries || (cursor.Some? && r.id < cursor.value)
  }

  /** The number the publisher goes by is that of the issuer when it read the row. */
  predicate HasNumber(phase: Phase) {
    phase.HasRow? || phase.HasCurrent? || phase.Collecting? || phase.Collected? || phase.Signed? || phase.HasRowAgain?
  }

  /** The publisher had read the row when the first behind CRLs were stored, and what they list. */
  predicate Behind(base: nat, s: State, x: Publisher) {
    && x.start <= x.behind <= |s.history|
    && (HasNumber(x.phase) ==> x.phase.number == base + x.behind)
    && StillThere(s, x.seen)
    && (forall i, r | 0 <= i < x.behind && r in s.history[i].crl.entries && r.notAfter > s.clock :: r in x.seen)
  }

  /** The time the publisher took is not before the CRLs stored when it started. */
  predicate Timely(s: State, x: Publisher) {
    x.now <= s.clock &&
    (TookTime(x.phase) ==> forall i | 0 <= i < x.start && i < |s.history| :: s.history[i].crl.thisUpdate <= x.now)
  }

  predicate TookTime(phase: Phase) {
    !phase.Idle? && !phase.HasRow? && !phase.HasCurrent? && !phase.Done?
  }

  predicate Progress(s: State, x: Publisher) {
    match x.phase
    case Collecting(_, cursor, entries) =>
      && GoodEntries(s, x.now, entries)
      && (cursor.None? ==> entries == [])
      && (cursor.Some? ==>
            entries != [] && cursor.value == entries[|entries| - 1].id && Covers(s, x.seen, entries, cursor))
    case Collected(_, entries) => GoodEntries(s, x.now, entries) && Covers(s, x.seen, entries, None)
    case Signed(number, crl) =>
      && GoodEntries(s, x.now, crl.entries) && Covers(s, x.seen, crl.entries, None)
      && crl.number == number + 1 && crl.thisUpdate == x.now < crl.nextUpdate <= s.notAfter
    case Refused => x.attempt == 1 && |s.history| > x.behind
    case HasRowAgain(_) => x.attempt == 1 && x.behind > x.start
    case Done(outcome) => outcome == StaleNumber ==> |s.history| >= x.start + 2
    case _ => true
  }

  /** The first attempt is the one of the row read first. */
  predicate GoodAttempt(x: Publisher) {
    && 1 <= x.attempt <= PUBLISH_ATTEMPTS
    && (x.attempt == 2 ==> x.behind > x.start)
    && (x.attempt == 1 && HasNumber(x.phase) && !x.phase.HasRowAgain? ==> x.behind == x.start)
  }

  predicate GoodPublisher(base: nat, s: State, x: Publisher) {
    x.phase.Idle? || (Behind(base, s, x) && Timely(s, x) && Progress(s, x) && GoodAttempt(x))
  }

  /** A stored CRL lists what its publisher had seen and is still valid, and what the CRLs before it list. */
  predicate Complete(s: State, i: nat)
    requires i < |s.history|
  {
    var h := s.history[i];
    && h.crl.thisUpdate <= h.at <= s.clock
    && h.crl.thisUpdate < h.crl.nextUpdate <= s.notAfter
    && GoodEntries(s, h.crl.thisUpdate, h.crl.entries)
    && (forall r | r in h.author.seen && r.notAfter > h.at :: r in h.crl.entries)
    && (forall j, r | 0 <= j < i && r in s.history[j].crl.entries && r.notAfter > h.at :: r in h.crl.entries)
    && 1 <= h.author.attempt <= PUBLISH_ATTEMPTS
    && h.author.start <= i && (h.author.attempt == 1 <==> h.author.start == i)
    && (forall j | 0 <= j < h.author.start :: s.history[j].crl.thisUpdate <= h.crl.thisUpdate)
  }

  predicate Inv(base: nat, s: State) {
    && Numbered(base, s)
    && (forall p | p in s.publishers :: GoodPublisher(base, s, s.publishers[p]))
    && (forall i | 0 <= i < |s.history| :: Complete(s, i))
  }

  /* ---- The invariant is kept ---- */

  /** The database keeps every valid row, and the clock does not go back. */
  predicate Later(s: State, s': State) {
    && s.clock <= s'.clock && s.notAfter == s'.notAfter
    && (forall r | r in s.db.revoked && r.notAfter > s'.clock :: r in s'.db.revoked)
    && |s.history| <= |s'.history| && s'.history[..|s.history|] == s.history
  }

  lemma NextLater(s: State, step: Step)
    requires Enabled(s, step)
    ensures Later(s, Next(s, step))
  {
  }

  lemma GoodEntriesLater(s: State, s': State, now: Time, entries: seq<Revocation>)
    requires Later(s, s') && GoodEntries(s, now, entries)
    ensures GoodEntries(s', now, entries)
  {
  }

  lemma CompleteLater(s: State, s': State, i: nat)
    requires Later(s, s') && i < |s.history| && Complete(s, i)
    ensures Complete(s', i)
  {
    assert forall j | 0 <= j <= i :: s'.history[j] == s.history[j];
    GoodEntriesLater(s, s', s.history[i].crl.thisUpdate, s.history[i].crl.entries);
  }

  /** A publisher that does nothing stays good. */
  lemma GoodLater(base: nat, s: State, s': State, x: Publisher)
    requires Later(s, s') && GoodPublisher(base, s, x)
    ensures GoodPublisher(base, s', x)
  {
    assert forall j | 0 <= j < |s.history| :: s'.history[j] == s.history[j];
    match x.phase
    case Collecting(_, _, entries) => GoodEntriesLater(s, s', x.now, entries);
    case Collected(_, entries) => GoodEntriesLater(s, s', x.now, entries);
    case Signed(_, crl) => GoodEntriesLater(s, s', x.now, crl.entries);
    case _ =>
  }

  /* ---- The actions ---- */

  lemma HistoryBefore(s: State)
    requires forall i | 0 <= i < |s.history| :: Complete(s, i)
    ensures forall i | 0 <= i < |s.history| :: s.history[i].crl.thisUpdate <= s.clock
    ensures forall i, r | 0 <= i < |s.history| && r in s.history[i].crl.entries && r.notAfter > s.clock ::
              r in s.db.revoked
  {
    forall i | 0 <= i < |s.history| ensures s.history[i].crl.thisUpdate <= s.clock {
      assert Complete(s, i);
    }
    forall i, r | 0 <= i < |s.history| && r in s.history[i].crl.entries && r.notAfter > s.clock
      ensures r in s.db.revoked
    {
      assert Complete(s, i) && r in Rows(s.history[i].crl.entries);
    }
  }

  /** The next page continues the entries, and what was seen is still in them or to come. */
  lemma PageGood(s: State, x: Publisher, page: seq<Revocation>, more: bool)
    requires x.phase.Collecting? && x.now <= s.clock && StillThere(s, x.seen) && Progress(s, x)
    requires IsPage(s.db.revoked, x.now, x.phase.cursor, page, more)
    ensures var entries := x.phase.entries + page;
            && (more ==> page != [] && entries[|entries| - 1] == page[|page| - 1])
            && GoodEntries(s, x.now, entries)
            && Covers(s, x.seen, entries, if more then Some(page[|page| - 1].id) else None)
  {
    var before, cursor := x.phase.entries, x.phase.cursor;
    var entries := before + page;
    assert Descending(entries) by {
      forall i, j | 0 <= i < j < |entries| ensures entries[i].id > entries[j].id {
        if i < |before| <= j {
          assert page[j - |before|] in page;
        }
      }
    }
    forall r | r in x.seen && r.notAfter > s.clock
      ensures r in entries || (more && r.id < page[|page| - 1].id)
    {
      assert r in s.db.revoked;
      if r !in before {
        assert Matches(r, x.now, cursor);
      }
    }
    forall r | r in Rows(entries) && r.notAfter > s.clock ensures r in s.db.revoked {
      assert r in Rows(before) || r in page;
    }
  }

  lemma RowGood(base: nat, s: State, x: Publisher, action: Action)
    requires Inv(base, s) && GoodPublisher(base, s, x) && CanDo(s, x, action)
    requires action.ReadRow? || action.ReadRowAgain?
    ensures GoodPublisher(base, s, Advance(s, x, action))
  {
    hide Complete, GoodEntries, Covers;
    HistoryBefore(s);
  }

  lemma TimeGood(base: nat, s: State, x: Publisher, action: Action)
    requires Inv(base, s) && GoodPublisher(base, s, x) && CanDo(s, x, action) && action.TakeTime?
    ensures GoodPublisher(base, s, Advance(s, x, action))
  {
    hide Complete, Covers;
    HistoryBefore(s);
  }

  lemma PageStepGood(base: nat, s: State, x: Publisher, action: Action)
    requires Inv(base, s) && GoodPublisher(base, s, x) && CanDo(s, x, action) && action.ReadPage?
    ensures GoodPublisher(base, s, Advance(s, x, action))
  {
    hide Inv, IsPage, GoodEntries, Covers, Descending, Rows;
    PageGood(s, x, action.page, action.more);
  }

  lemma OtherGood(base: nat, s: State, x: Publisher, action: Action)
    requires Inv(base, s) && GoodPublisher(base, s, x) && CanDo(s, x, action)
    requires action.ReadCurrent? || action.Sign? || action.ReadCurrentAgain? || action.Fail?
    ensures GoodPublisher(base, s, Advance(s, x, action))
  {
    hide Inv;
  }

  /** Every action but the store leaves the publisher good. */
  lemma AdvanceGood(base: nat, s: State, x: Publisher, action: Action)
    requires Inv(base, s) && GoodPublisher(base, s, x) && CanDo(s, x, action) && !action.Store?
    ensures GoodPublisher(base, s, Advance(s, x, action))
  {
    hide *;
    match action
    case ReadRow(_) => RowGood(base, s, x, action);
    case ReadRowAgain => RowGood(base, s, x, action);
    case TakeTime(_, _) => TimeGood(base, s, x, action);
    case ReadPage(_, _) => PageStepGood(base, s, x, action);
    case ReadCurrent => OtherGood(base, s, x, action);
    case Sign => OtherGood(base, s, x, action);
    case ReadCurrentAgain => OtherGood(base, s, x, action);
    case Fail => OtherGood(base, s, x, action);
  }

  /** A store that is accepted gives the number after the last one, by a publisher behind no CRL. */
  lemma StoreComplete(base: nat, s: State, x: Publisher)
    requires Inv(base, s) && GoodPublisher(base, s, x) && x.phase.Signed? && x.phase.crl.number > s.db.number
    ensures var s' := StoreCrl(s, x);
            Numbered(base, s') && Complete(s', |s.history|)
  {
    var s' := StoreCrl(s, x);
    var n := |s.history|;
    assert x.behind == n;
    assert forall j | 0 <= j < n :: s'.history[j] == s.history[j];
    GoodEntriesLater(s, s', x.now, x.phase.crl.entries);
  }

  /** A store, accepted or refused, leaves its publisher good. */
  lemma StoreGood(base: nat, s: State, x: Publisher)
    requires Inv(base, s) && GoodPublisher(base, s, x) && x.phase.Signed?
    ensures GoodPublisher(base, StoreCrl(s, x), Advance(s, x, Store))
  {
    var s' := StoreCrl(s, x);
    assert forall j | 0 <= j < |s.history| :: s'.history[j] == s.history[j];
  }

  lemma InvNext(base: nat, s: State, step: Step)
    requires Inv(base, s) && Enabled(s, step)
    ensures Inv(base, Next(s, step))
  {
    var s' := Next(s, step);
    NextLater(s, step);
    forall i | 0 <= i < |s.history| ensures Complete(s', i) {
      CompleteLater(s, s', i);
    }
    forall p | p in s'.publishers ensures GoodPublisher(base, s', s'.publishers[p]) {
      if step.By? && step.p == p {
        ActorGood(base, s, step);
      } else {
        GoodLater(base, s, s', s.publishers[p]);
      }
    }
    NumberedNext(base, s, step);
  }

  lemma ActorGood(base: nat, s: State, step: Step)
    requires Inv(base, s) && Enabled(s, step) && step.By?
    ensures var s' := Next(s, step); GoodPublisher(base, s', s'.publishers[step.p])
  {
    var s', x := Next(s, step), s.publishers[step.p];
    var x' := Advance(s, x, step.action);
    if step.action.Store? {
      StoreGood(base, s, x);
      GoodLater(base, StoreCrl(s, x), s', x');
    } else {
      AdvanceGood(base, s, x, step.action);
      GoodLater(base, s, s', x');
    }
  }

  lemma NumberedNext(base: nat, s: State, step: Step)
    requires Inv(base, s) && Enabled(s, step)
    ensures var s' := Next(s, step);
            && Numbered(base, s')
            && (|s'.history| > |s.history| ==> |s'.history| == |s.history| + 1 && Complete(s', |s.history|))
  {
    if step.By? && step.action.Store? {
      var x := s.publishers[step.p];
      if x.phase.crl.number > s.db.number {
        StoreComplete(base, s, x);
        CompleteLater(StoreCrl(s, x), Next(s, step), |s.history|);
      }
    }
  }

  lemma {:induction false} InvRun(base: nat, s: State, steps: seq<Step>)
    requires Inv(base, s) && IsRun(s, steps)
    ensures Inv(base, Run(s, steps))
    decreases |steps|
  {
    if steps != [] {
      InvNext(base, s, steps[0]);
      InvRun(base, Next(s, steps[0]), steps[1..]);
    }
  }

  /* ---- What every run keeps ---- */

  lemma RunInv(s: State, steps: seq<Step>)
    requires Init(s) && IsRun(s, steps)
    ensures Inv(s.db.number, Run(s, steps))
  {
    InvRun(s.db.number, s, steps);
  }

  /**
   * The CRL numbers are consecutive, whoever publishes: none is used twice and none is skipped;
   * the issuer has the last one, and its current CRL is the last one stored.
   */
  lemma NumbersConsecutive(s: State, steps: seq<Step>)
    requires Init(s) && IsRun(s, steps)
    ensures var t := Run(s, steps);
            && t.db.number == s.db.number + |t.history|
            && (forall i | 0 <= i < |t.history| :: t.history[i].crl.number == s.db.number + 1 + i)
            && (t.db.crl.Some? ==> t.history != [] && t.db.crl.value == t.history[|t.history| - 1].crl)
  {
    RunInv(s, steps);
  }

  /** A revoked certificate stays on every later CRL until it expires. */
  lemma RevocationStays(s: State, steps: seq<Step>, i: nat, j: nat, r: Revocation)
    requires Init(s) && IsRun(s, steps)
    requires var t := Run(s, steps);
             i < j < |t.history| && r in t.history[i].crl.entries && r.notAfter > t.history[j].at
    ensures r in Run(s, steps).history[j].crl.entries
  {
    RunInv(s, steps);
    assert Complete(Run(s, steps), j);
  }

  /**
   * A CRL lists every revocation committed before its publisher read the issuer row and valid
   * when it is stored, no certificate that had expired at its time, and none twice.
   */
  lemma CrlComplete(s: State, steps: seq<Step>, i: nat)
    requires Init(s) && IsRun(s, steps) && i < |Run(s, steps).history|
    ensures var h := Run(s, steps).history[i];
            && (forall r | r in h.author.seen && r.notAfter > h.at :: r in h.crl.entries)
            && (forall r | r in h.crl.entries :: r.notAfter > h.crl.thisUpdate)
            && Descending(h.crl.entries)
            && h.crl.thisUpdate < h.crl.nextUpdate <= s.notAfter
  {
    RunInv(s, steps);
    assert Complete(Run(s, steps), i);
    RunLater(s, steps);
  }

  lemma {:induction false} RunLater(s: State, steps: seq<Step>)
    requires IsRun(s, steps)
    ensures Run(s, steps).notAfter == s.notAfter
    decreases |steps|
  {
    if steps != [] {
      RunLater(Next(s, steps[0]), steps[1..]);
    }
  }

  /** What a publisher has listed so far. */
  function ListedBy(phase: Phase): seq<Revocation> {
    match phase
    case Collecting(_, _, entries) => entries
    case Collected(_, entries) => entries
    case Signed(_, crl) => crl.entries
    case _ => []
  }

  /** Nothing but these revocations is in the database, with a publisher or on a CRL. */
  predicate Only(s: State, known: set<Revocation>) {
    && s.db.revoked <= known
    && (forall p | p in s.publishers :: Rows(ListedBy(s.publishers[p].phase)) <= known)
    && (forall i | 0 <= i < |s.history| :: Rows(s.history[i].crl.entries) <= known)
  }

  function KnownNext(known: set<Revocation>, step: Step): set<Revocation> {
    if step.Around? && step.event.Revoke? then known + {step.event.r} else known
  }

  lemma OnlyAdvance(s: State, x: Publisher, action: Action, known: set<Revocation>)
    requires CanDo(s, x, action) && s.db.revoked <= known && Rows(ListedBy(x.phase)) <= known
    ensures Rows(ListedBy(Advance(s, x, action).phase)) <= known
  {
    if action.ReadPage? {
      forall r | r in x.phase.entries + action.page ensures r in known {
        assert r in x.phase.entries ==> r in Rows(x.phase.entries);
      }
    }
  }

  lemma OnlyNext(s: State, step: Step, known: set<Revocation>)
    requires Only(s, known) && Enabled(s, step)
    ensures Only(Next(s, step), KnownNext(known, step))
  {
    if step.By? {
      OnlyAdvance(s, s.publishers[step.p], step.action, known);
      hide Advance, CanDo, Rows;
    }
  }

  /** The revocations that are known after the steps. */
  function KnownAfter(known: set<Revocation>, steps: seq<Step>): set<Revocation>
    decreases |steps|
  {
    if steps == [] then known else KnownAfter(KnownNext(known, steps[0]), steps[1..])
  }

  lemma {:induction false} OnlyRun(s: State, steps: seq<Step>, known: set<Revocation>)
    requires Only(s, known) && IsRun(s, steps)
    ensures Only(Run(s, steps), KnownAfter(known, steps))
    decreases |steps|
  {
    if steps != [] {
      OnlyNext(s, steps[0], known);
      OnlyRun(Next(s, steps[0]), steps[1..], KnownNext(known, steps[0]));
    }
  }

  lemma {:induction false} KnownRevoked(known: set<Revocation>, steps: seq<Step>, r: Revocation)
    requires r in KnownAfter(known, steps)
    ensures r in known || Around(Revoke(r)) in steps
    decreases |steps|
  {
    if steps != [] {
      KnownRevoked(KnownNext(known, steps[0]), steps[1..], r);
    }
  }

  /** A CRL lists only certificates that were revoked before the run or in it. */
  lemma OnlyRevoked(s: State, steps: seq<Step>, i: nat, r: Revocation)
    requires Init(s) && IsRun(s, steps) && i < |Run(s, steps).history| && r in Run(s, steps).history[i].crl.entries
    ensures r in s.db.revoked || Around(Revoke(r)) in steps
  {
    OnlyRun(s, steps, s.db.revoked);
    assert r in Rows(Run(s, steps).history[i].crl.entries);
    KnownRevoked(s.db.revoked, steps, r);
  }

  /** A store is refused exactly when another CRL was stored after the publisher read the row. */
  lemma RefusedIfBeaten(s: State, steps: seq<Step>, p: nat)
    requires Init(s) && IsRun(s, steps) && p in s.publishers
    ensures var t := Run(s, steps);
            && p in t.publishers
            && (t.publishers[p].phase.Signed? ==>
                  (t.publishers[p].phase.crl.number > t.db.number <==> |t.history| == t.publishers[p].behind))
            && (t.publishers[p].phase == Done(StaleNumber) ==> |t.history| >= t.publishers[p].start + 2)
  {
    RunInv(s, steps);
    PublishersKept(s, steps);
    assert GoodPublisher(s.db.number, Run(s, steps), Run(s, steps).publishers[p]);
  }

  lemma {:induction false} PublishersKept(s: State, steps: seq<Step>)
    requires IsRun(s, steps)
    ensures Run(s, steps).publishers.Keys == s.publishers.Keys
    decreases |steps|
  {
    if steps != [] {
      PublishersKept(Next(s, steps[0]), steps[1..]);
    }
  }

  /* ---- When a CRL is stored, and when it is kept ---- */

  /** The publisher has read the current CRL, and goes by it. */
  predicate HasRead(phase: Phase) {
    phase.HasCurrent? || phase.Collecting? || phase.Collected? || phase.Signed? || phase == Done(Kept)
  }

  /** The CRL is a stored one, and not older than the issuer row the publisher read. */
  predicate StoredSince(s: State, crl: Crl, behind: nat) {
    exists i: nat | i < |s.history| && behind <= i + 1 :: s.history[i].crl == crl
  }

  /** The publisher signs only if it is forced or the CRL it read is due, and keeps it otherwise. */
  predicate GoodCurrent(s: State, x: Publisher) {
    && (HasRead(x.phase) && x.current.Some? ==> StoredSince(s, x.current.value, x.behind))
    && (x.phase.Collecting? || x.phase.Collected? || x.phase.Signed? ==> x.force || CrlDue(x.current, x.renewal, x.now))
    && (x.phase.Signed? ==> x.phase.crl.nextUpdate == Min(x.now + x.expiry, s.notAfter))
    && (x.phase == Done(Kept) ==> !x.force && !CrlDue(x.current, x.renewal, x.now))
    && (x.phase == Done(Expired) ==> s.notAfter <= x.now || x.expiry == 0)
  }

  /** The publisher was forced, or the CRL before its own was due, or deleted; its own is valid for the expiry. */
  predicate Warranted(s: State, i: nat)
    requires i < |s.history|
  {
    var h := s.history[i];
    && (h.author.force || CrlDue(h.author.current, h.author.renewal, h.crl.thisUpdate))
    && (h.author.current.Some? ==> i > 0 && h.author.current.value == s.history[i - 1].crl)
    && h.crl.nextUpdate == Min(h.crl.thisUpdate + h.author.expiry, s.notAfter)
  }

  predicate Policy(s: State) {
    && (forall p | p in s.publishers :: GoodCurrent(s, s.publishers[p]))
    && (forall i | 0 <= i < |s.history| :: Warranted(s, i))
  }

  lemma CurrentLater(s: State, s': State, x: Publisher)
    requires Later(s, s') && GoodCurrent(s, x)
    ensures GoodCurrent(s', x)
  {
    if HasRead(x.phase) && x.current.Some? {
      var i: nat :| i < |s.history| && x.behind <= i + 1 && s.history[i].crl == x.current.value;
      assert s'.history[i] == s.history[i];
    }
  }

  lemma WarrantedLater(s: State, s': State, i: nat)
    requires Later(s, s') && i < |s.history| && Warranted(s, i)
    ensures Warranted(s', i)
  {
    assert forall j | 0 <= j <= i :: s'.history[j] == s.history[j];
  }

  lemma AdvanceCurrent(base: nat, s: State, x: Publisher, action: Action)
    requires Inv(base, s) && GoodPublisher(base, s, x) && GoodCurrent(s, x) && CanDo(s, x, action)
    ensures GoodCurrent(s, Advance(s, x, action))
  {
    hide Complete, Timely, Progress, GoodAttempt, StillThere, IsPage;
    if s.db.crl.Some? && (action.ReadCurrent? || action.ReadCurrentAgain?) {
      assert s.history[|s.history| - 1].crl == s.db.crl.value;
      assert StoredSince(s, s.db.crl.value, x.behind);
    }
  }

  /** A publisher whose store is accepted had read the last CRL, if any was current. */
  lemma StoreWarranted(base: nat, s: State, x: Publisher)
    requires Inv(base, s) && GoodPublisher(base, s, x) && GoodCurrent(s, x)
    requires x.phase.Signed? && x.phase.crl.number > s.db.number
    ensures Warranted(StoreCrl(s, x), |s.history|)
  {
    hide Complete, Timely, GoodAttempt, GoodEntries, Covers, StillThere;
    assert x.behind == |s.history|;
  }

  lemma PolicyNext(base: nat, s: State, step: Step)
    requires Inv(base, s) && Policy(s) && Enabled(s, step)
    ensures Policy(Next(s, step))
  {
    hide Inv, GoodCurrent, Warranted;
    var s' := Next(s, step);
    NextLater(s, step);
    forall p | p in s'.publishers ensures GoodCurrent(s', s'.publishers[p]) {
      PublisherPolicy(base, s, step, p);
    }
    forall i | 0 <= i < |s'.history| ensures Warranted(s', i) {
      if i < |s.history| {
        WarrantedLater(s, s', i);
      } else {
        LastWarranted(base, s, step);
      }
    }
  }

  lemma PublisherPolicy(base: nat, s: State, step: Step, p: nat)
    requires Inv(base, s) && Policy(s) && Enabled(s, step) && p in s.publishers
    ensures var s' := Next(s, step); GoodCurrent(s', s'.publishers[p])
  {
    hide GoodPublisher, Complete, GoodCurrent, Warranted, Advance;
    NextLater(s, step);
    var x := s.publishers[p];
    if step.By? && step.p == p {
      AdvanceCurrent(base, s, x, step.action);
      CurrentLater(s, Next(s, step), Advance(s, x, step.action));
    } else {
      CurrentLater(s, Next(s, step), x);
    }
  }

  lemma LastWarranted(base: nat, s: State, step: Step)
    requires Inv(base, s) && Policy(s) && Enabled(s, step) && |Next(s, step).history| > |s.history|
    ensures var s' := Next(s, step); |s'.history| == |s.history| + 1 && Warranted(s', |s.history|)
  {
    hide GoodPublisher, Complete, GoodCurrent, Warranted, Advance;
    var x := s.publishers[step.p];
    StoreWarranted(base, s, x);
    WarrantedLater(StoreCrl(s, x), Next(s, step), |s.history|);
  }

  lemma {:induction false} PolicyRun(base: nat, s: State, steps: seq<Step>)
    requires Inv(base, s) && Policy(s) && IsRun(s, steps)
    ensures Policy(Run(s, steps))
    decreases |steps|
  {
    hide Inv, Policy;
    if steps != [] {
      InvNext(base, s, steps[0]);
      PolicyNext(base, s, steps[0]);
      PolicyRun(base, Next(s, steps[0]), steps[1..]);
    }
  }

  /**
   * A CRL is stored, at either attempt, only by a publisher that was forced, or found the CRL
   * before it due at the time it took, or found none. It ends with its expiry or with the issuer.
   */
  lemma StoredIfDue(s: State, steps: seq<Step>, i: nat)
    requires Init(s) && IsRun(s, steps) && i < |Run(s, steps).history|
    ensures var h := Run(s, steps).history;
            var x, crl := h[i].author, h[i].crl;
            && (x.force || x.current == None || (i > 0 && h[i - 1].crl.nextUpdate <= crl.thisUpdate + x.renewal))
            && (crl.nextUpdate == crl.thisUpdate + x.expiry || crl.nextUpdate == s.notAfter)
            && crl.nextUpdate <= crl.thisUpdate + x.expiry && crl.nextUpdate <= s.notAfter
  {
    PolicyRun(s.db.number, s, steps);
    RunLater(s, steps);
    assert Warranted(Run(s, steps), i);
  }

  /**
   * A publisher that ends without a CRL of its own was not forced, and returns a stored CRL that
   * is not due at the time it took, and not older than the issuer row it read.
   */
  lemma KeptNotDue(s: State, steps: seq<Step>, p: nat)
    requires Init(s) && IsRun(s, steps) && p in Run(s, steps).publishers
    requires Run(s, steps).publishers[p].phase == Done(Kept)
    ensures var t := Run(s, steps);
            var x := t.publishers[p];
            && !x.force && x.current.Some? && StoredSince(t, x.current.value, x.behind)
            && x.current.value.nextUpdate > x.now + x.renewal
  {
    PolicyRun(s.db.number, s, steps);
    assert GoodCurrent(Run(s, steps), Run(s, steps).publishers[p]);
  }

  /** A publisher that ends because of the issuer took a time at its end or later, or its CRLs have no validity. */
  lemma ExpiredOnlyIf(s: State, steps: seq<Step>, p: nat)
    requires Init(s) && IsRun(s, steps) && p in Run(s, steps).publishers
    requires Run(s, steps).publishers[p].phase == Done(Expired)
    ensures var x := Run(s, steps).publishers[p]; s.notAfter <= x.now || x.expiry == 0
  {
    PolicyRun(s.db.number, s, steps);
    RunLater(s, steps);
    assert GoodCurrent(Run(s, steps), Run(s, steps).publishers[p]);
  }

  /* ---- What a step comes to ---- */

  /** A publisher goes on from the row it read, for either attempt, exactly if the status of the issuer publishes. */
  lemma RowLook(s: State, p: nat, action: Action)
    requires (action.ReadRow? || action.ReadRowAgain?) && Enabled(s, By(p, action))
    ensures var s' := Next(s, By(p, action));
            var x' := s'.publishers[p];
            && s'.history == s.history && s'.db == s.db
            && (x'.phase == Done(NotActive) <==> !s.db.publishes)
            && (s.db.publishes ==>
                  && x'.phase == (if action.ReadRow? then HasRow(s.db.number) else HasRowAgain(s.db.number))
                  && x'.seen == s.db.revoked && x'.behind == |s.history|)
            && (action.ReadRow? ==> x'.force == action.force && x'.attempt == 1)
  {
  }

  /**
   * At the first look, the issuer has ended or not; if not, an unforced publisher keeps a CRL
   * whose next update is after the renewal, and any other goes on. Nothing is stored.
   */
  lemma FirstLook(s: State, p: nat, renewal: Time, expiry: Time)
    requires Enabled(s, By(p, TakeTime(renewal, expiry)))
    ensures var s', x := Next(s, By(p, TakeTime(renewal, expiry))), s.publishers[p];
            var x' := s'.publishers[p];
            && s'.history == s.history && s'.db == s.db && x'.now == s.clock
            && (x'.phase == Done(Expired) <==> s.notAfter <= s.clock)
            && (x'.phase == Done(Kept) <==>
                  s.clock < s.notAfter && !x.force && x.current.Some? && x.current.value.nextUpdate > s.clock + renewal)
            && (x'.phase.Done? || x'.phase == Collecting(x.phase.number, None, []))
  {
  }

  /** At the second look the same, with the CRL that is current then and the time of the first. */
  lemma SecondLook(s: State, p: nat)
    requires Enabled(s, By(p, ReadCurrentAgain))
    ensures var s', x := Next(s, By(p, ReadCurrentAgain)), s.publishers[p];
            var x' := s'.publishers[p];
            && s'.history == s.history && s'.db == s.db && x'.now == x.now
            && (x'.phase == Done(Kept) <==>
                  !x.force && s.db.crl.Some? && s.db.crl.value.nextUpdate > x.now + x.renewal)
            && (x'.phase.Done? || (x'.phase == Collecting(x.phase.number, None, []) && x'.attempt == x.attempt + 1))
  {
  }

  /** A CRL has the next number, the time of its publisher and what it listed. */
  lemma SignedCrl(s: State, p: nat)
    requires Enabled(s, By(p, Sign))
    ensures var s', x := Next(s, By(p, Sign)), s.publishers[p];
            var x' := s'.publishers[p];
            && s'.history == s.history && s'.db == s.db
            && (x'.phase == Done(Expired) <==> x.expiry == 0 || s.notAfter <= x.now)
            && (x'.phase != Done(Expired) ==>
                  && x'.phase.Signed?
                  && x'.phase.crl.number == x.phase.number + 1 && x'.phase.crl.thisUpdate == x.now
                  && x'.phase.crl.entries == x.phase.entries
                  && x'.phase.crl.nextUpdate == if s.notAfter < x.now + x.expiry then s.notAfter else x.now + x.expiry)
  {
  }

  /**
   * In every run, a store is published exactly if no other CRL was stored since the publisher read
   * the issuer row; then its CRL is the current and the last one. Otherwise nothing changes, and it
   * reads the row again after the first attempt and gives up after the second.
   */
  lemma StoreOutcome(s: State, steps: seq<Step>, p: nat)
    requires Init(s) && IsRun(s, steps) && Enabled(Run(s, steps), By(p, Store))
    ensures var t := Run(s, steps);
            var t', x := Next(t, By(p, Store)), t.publishers[p];
            var x' := t'.publishers[p];
            && (x'.phase == Done(Published) <==> |t.history| == x.behind)
            && (x'.phase == Done(Published) ==>
                  && t'.history == t.history + [Stored(x.phase.crl, x, t.clock)]
                  && t'.db == t.db.(number := x.phase.crl.number, crl := Some(x.phase.crl)))
            && (x'.phase != Done(Published) ==>
                  && t'.history == t.history && t'.db == t.db
                  && x'.phase == if x.attempt == 1 then Refused else Done(StaleNumber))
  {
    RunInv(s, steps);
    var t := Run(s, steps);
    hide Complete, GoodEntries, Covers, StillThere, Timely, IsRun, Run;
    assert GoodPublisher(s.db.number, t, t.publishers[p]);
  }
}
