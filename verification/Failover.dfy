/** The failover loop of gateway.py `_handle`: try keys until one answers, at most three. */
module FailoverSpec {
  import opened Prelude
  import opened ApiKeys
  import opened KeyLifecycle
  import opened QuotaSpec
  import opened KeyRows

  const MAX_RETRY_KEYS := 3

  /** What the upstream does; `quotaText` says whether the body names an exhausted quota. */
  datatype Answer =
    | Responded(status: int, quotaText: bool, prompt: int, completion: int, cost: real)
    | Raised(status: int, category: Category)
    | Crashed

  /** Everything one attempt meets that the gateway does not control; `deleted` are keys deleted while it waits. */
  datatype Circumstance = Circumstance(
    rpmAllowed: bool, decrypts: bool, hasBase: bool, answer: Answer,
    draw: real, latencyMs: real, today: Date, now: int, deleted: seq<string>)

  /** What one attempt came to. */
  datatype Ev =
    | RpmRefused(id: string)
    | Undecryptable(id: string, today: Date, now: int)
    | NoBase(id: string)
    | Failed(id: string, status: int, category: Category, today: Date, now: int)
    | Done(id: string, rec: Rec, latencyMs: real, now: int)
    | Streaming(id: string)
    | Broke(id: string)

  datatype Result = Answered(id: string, status: int) | GaveUp(status: int, category: Category) | Exception

  /** `_classify_status`. */
  function Classify(status: int, quotaText: bool): Category {
    if status == 429 then Other
    else if quotaText then QuotaGone
    else if status == 401 || status == 403 then AuthFailed
    else Other
  }

  /** A plain call wants a 2xx, a stream anything below 400. */
  predicate Good(stream: bool, status: int) {
    if stream then status < 400 else 200 <= status < 300
  }

  function EventOf(id: string, stream: bool, c: Circumstance): (ev: Ev)
    ensures ev.id == id
  {
    if !c.rpmAllowed then RpmRefused(id)
    else if !c.decrypts then Undecryptable(id, c.today, c.now)
    else if !c.hasBase then NoBase(id)
    else match c.answer
      case Responded(status, quotaText, prompt, completion, cost) =>
        if !Good(stream, status) then Failed(id, status, Classify(status, quotaText), c.today, c.now)
        else if stream then Streaming(id)
        else Done(id, Rec(c.today, prompt, completion, status, cost), c.latencyMs, c.now)
      case Raised(status, category) => Failed(id, status, category, c.today, c.now)
      case Crashed => Broke(id)
  }

  /** The loop ends here. */
  predicate Final(ev: Ev) { ev.Done? || ev.Streaming? || ev.Broke? }

  /** The usage record of a failed call: no tokens, status 429 for a quota failure and 500 otherwise. */
  function ErrorRec(category: Category, today: Date): Rec {
    Rec(today, 0, 0, if category == QuotaGone then 429 else 500, 0.0)
  }

  /**
   * The books of one finished call: the lifecycle event, which goes by id and so reaches only a
   * cached key, and then the usage record, which works on the record held and puts it into the
   * cache. With the keys come the rows that are queued.
   */
  function Booked(m: Monitor, ks: Keys, k: Key, e: Event, rec: Rec, now: int): (Keys, seq<Tables.Item>) {
    var ks1 := Apply(ks, k.id, e);
    var k1 := if Find(ks, k.id).Some? then On(k, e) else k;
    var k2 := Record(m, k1, rec, now);
    (Store(ks1, k2), Snapshot(ks1, k.id, rec.date) + [StatsOf(k.provider, k.id, rec), ItemOf(k2, rec.date)])
  }

  /** What an attempt on the record `k` leaves: the keys, and the rows it queues. */
  function Effect(m: Monitor, ks: Keys, k: Key, ev: Ev): (Keys, seq<Tables.Item>) {
    match ev
    case Undecryptable(_, today, now) =>
      var ks1 := Apply(ks, k.id, Failure(AuthFailed, now));
      (ks1, Snapshot(ks1, k.id, today))
    case Failed(_, _, category, today, now) => Booked(m, ks, k, Failure(category, now), ErrorRec(category, today), now)
    case Done(_, rec, _, now) => Booked(m, ks, k, Success(now), rec, now)
    case _ => (ks, [])
  }

  /** The record of `id` as it is: the cached one, or the one the request held from the start. */
  function Current(ks: Keys, held: string -> Key, id: string): Key {
    match Find(ks, id)
    case Some(k) => k
    case None => held(id)
  }

  /** The keys and the queue once an attempt on the record `k` is booked. */
  function Booking(m: Monitor, ks: Keys, queue: seq<Tables.Item>, k: Key, ev: Ev): (Keys, seq<Tables.Item>) {
    var (after, rows) := Effect(m, ks, k, ev);
    (after, queue + rows)
  }

  /** The keys, and the key table, once some have been deleted. */
  function Spared(ks: Keys, deleted: seq<string>): Keys {
    if deleted == [] then ks else Drop(Spared(ks, Init(deleted)), Last(deleted))
  }

  function Cleared(tables: Tables.Db, deleted: seq<string>): Tables.Db {
    if deleted == [] then tables else Tables.DeleteKey(Cleared(tables, Init(deleted)), Last(deleted))
  }

  /** The cached keys, the writer's queue and the tables. */
  datatype Books = Books(keys: Keys, queue: seq<Tables.Item>, tables: Tables.Db)

  /** The books after deletions alone. */
  function Without(b: Books, deleted: seq<string>): Books {
    Books(Spared(b.keys, deleted), b.queue, Cleared(b.tables, deleted))
  }

  /** What an attempt leaves, deletions under way included: they come before anything is booked. */
  function Attempted(m: Monitor, b: Books, held: string -> Key, ev: Ev, deleted: seq<string>): Books {
    var spared := Without(b, deleted);
    var (ks, queue) := Booking(m, spared.keys, spared.queue, Current(spared.keys, held, ev.id), ev);
    Books(ks, queue, spared.tables)
  }

  /** What the events account for. */
  function Account(m: Monitor, b: Books, held: string -> Key, trace: seq<Ev>, env: seq<Circumstance>): Books
    requires |trace| <= |env|
  {
    if trace == [] then b
    else Attempted(m, Account(m, b, held, Init(trace), env), held, Last(trace), env[|trace| - 1].deleted)
  }

  /** The last upstream failure, which names the error the client sees. */
  function LastFailure(trace: seq<Ev>): (int, Category) {
    if trace == [] then (502, Other)
    else if Last(trace).Failed? then (Last(trace).status, Last(trace).category)
    else LastFailure(Init(trace))
  }

  function FinalResult(ev: Ev, c: Circumstance): Result {
    if c.answer.Responded? then Answered(ev.id, c.answer.status) else Exception
  }

  /** The client's answer: the upstream's on success, otherwise the last upstream failure. */
  function ResultOf(trace: seq<Ev>, env: seq<Circumstance>): Result
    requires |trace| <= |env|
  {
    if trace != [] && Final(Last(trace)) then FinalResult(Last(trace), env[|trace| - 1])
    else
      var (status, category) := LastFailure(trace);
      GaveUp(status, category)
  }

  ghost function Tried(trace: seq<Ev>): set<string> {
    set i | 0 <= i < |trace| :: trace[i].id
  }

  /** No key twice, nothing after a final event, and each event is what its circumstances dictate. */
  ghost predicate Proper(trace: seq<Ev>, stream: bool, env: seq<Circumstance>)
    requires |trace| <= |env|
  {
    && (forall i, j :: 0 <= i < j < |trace| ==> trace[i].id != trace[j].id)
    && (forall i :: 0 <= i < |trace| ==> trace[i] == EventOf(trace[i].id, stream, env[i]))
    && (forall i :: 0 <= i < |trace| - 1 ==> !Final(trace[i]))
  }

  /** The loop's own state agrees with the events so far, none of them final. */
  ghost predicate Sofar(trace: seq<Ev>, tried: set<string>, ids: set<string>, stream: bool, env: seq<Circumstance>,
                        status: int, category: Category) {
    && |trace| <= |env| && Proper(trace, stream, env)
    && (forall i :: 0 <= i < |trace| ==> !Final(trace[i]))
    && tried == Tried(trace) && tried <= ids
    && (status, category) == LastFailure(trace)
  }

  lemma NoAnswer(trace: seq<Ev>, tried: set<string>, ids: set<string>, stream: bool, env: seq<Circumstance>,
                 status: int, category: Category)
    requires Sofar(trace, tried, ids, stream, env, status, category)
    ensures ResultOf(trace, env) == GaveUp(status, category)
  {
    assert trace != [] ==> Last(trace) == trace[|trace| - 1];
  }

  /** The loop ends without an answer. */
  lemma EndsWithout(trace: seq<Ev>, tried: set<string>, ids: set<string>, stream: bool, env: seq<Circumstance>,
                    status: int, category: Category, listed: nat)
    requires Sofar(trace, tried, ids, stream, env, status, category) && |ids| <= listed
    requires |trace| == Min(MAX_RETRY_KEYS, listed) || (|trace| < Min(MAX_RETRY_KEYS, listed) && Tried(trace) == ids)
    ensures Proper(trace, stream, env) && Complete(trace, ids) && ResultOf(trace, env) == GaveUp(status, category)
  {
    LoopCompletes(trace, stream, env, ids, listed);
    NoAnswer(trace, tried, ids, stream, env, status, category);
  }

  lemma TriedExtends(trace: seq<Ev>, ev: Ev)
    ensures Tried(trace + [ev]) == Tried(trace) + {ev.id}
  {
    var t := trace + [ev];
    assert t[|trace|] == ev;
    assert forall i :: 0 <= i < |trace| ==> t[i] == trace[i];
    forall x | x in Tried(trace)
      ensures x in Tried(t)
    {
      var i :| 0 <= i < |trace| && trace[i].id == x;
      assert t[i].id == x;
    }
  }

  lemma ProperExtends(trace: seq<Ev>, ev: Ev, stream: bool, env: seq<Circumstance>)
    requires |trace| < |env| && Proper(trace, stream, env) && (forall i :: 0 <= i < |trace| ==> !Final(trace[i]))
    requires ev == EventOf(ev.id, stream, env[|trace|]) && ev.id !in Tried(trace)
    ensures Proper(trace + [ev], stream, env)
  {
    assert forall i :: 0 <= i < |trace| ==> trace[i].id in Tried(trace) && (trace + [ev])[i] == trace[i];
  }

  lemma Extend(trace: seq<Ev>, ev: Ev, tried: set<string>, ids: set<string>, stream: bool, env: seq<Circumstance>,
               status: int, category: Category)
    requires Sofar(trace, tried, ids, stream, env, status, category)
    requires |trace| < |env| && ev == EventOf(ev.id, stream, env[|trace|]) && ev.id in ids && ev.id !in tried
    ensures Proper(trace + [ev], stream, env) && Tried(trace + [ev]) <= ids
    ensures Final(ev) ==> ResultOf(trace + [ev], env) == FinalResult(ev, env[|trace|])
    ensures !Final(ev) ==>
              Sofar(trace + [ev], tried + {ev.id}, ids, stream, env,
                    if ev.Failed? then ev.status else status, if ev.Failed? then ev.category else category)
  {
    TriedExtends(trace, ev);
    ProperExtends(trace, ev, stream, env);
    assert Init(trace + [ev]) == trace && Last(trace + [ev]) == ev;
  }

  lemma AccountExtends(m: Monitor, b: Books, held: string -> Key, trace: seq<Ev>, env: seq<Circumstance>, ev: Ev)
    requires |trace| < |env|
    ensures Account(m, b, held, trace + [ev], env)
            == Attempted(m, Account(m, b, held, trace, env), held, ev, env[|trace|].deleted)
  {
    assert Init(trace + [ev]) == trace;
  }

  lemma DeletedFirst(m: Monitor, b: Books, held: string -> Key, id: string, ev: Ev, deleted: seq<string>,
                     spared: Books, ks: Keys, queue: seq<Tables.Item>)
    requires ev.id == id && spared == Without(b, deleted)
    requires (ks, queue) == Booking(m, spared.keys, spared.queue, Current(spared.keys, held, id), ev)
    ensures Attempted(m, b, held, ev, deleted) == Books(ks, queue, Without(b, deleted).tables)
  {
  }

  /** Every held record is filed under its own id. */
  predicate Filed(held: string -> Key, trace: seq<Ev>) {
    forall i :: 0 <= i < |trace| ==> held(trace[i].id).id == trace[i].id
  }

  lemma CurrentId(ks: Keys, held: string -> Key, id: string)
    requires held(id).id == id
    ensures Current(ks, held, id).id == id
  {
    FindMember(ks, id);
  }

  lemma {:induction false} SparedFind(ks: Keys, deleted: seq<string>, id: string)
    ensures Find(Spared(ks, deleted), id) == if id in deleted then None else Find(ks, id)
  {
    if deleted != [] {
      SparedFind(ks, Init(deleted), id);
      DropFind(Spared(ks, Init(deleted)), Last(deleted), id);
      assert deleted == Init(deleted) + [Last(deleted)];
    }
  }

  lemma {:induction false} SparedDistinct(ks: Keys, deleted: seq<string>)
    requires DistinctIds(ks)
    ensures DistinctIds(Spared(ks, deleted))
  {
    if deleted != [] {
      SparedDistinct(ks, Init(deleted));
      DropMembers(Spared(ks, Init(deleted)), Last(deleted));
    }
  }

  /** Of `ks`, `after` differs at most in the record of `k`, which it has. */
  ghost predicate StoredOver(ks: Keys, after: Keys, k: Key) {
    DistinctIds(after) && forall x :: Find(after, x) == if x == k.id then Some(k) else Find(ks, x)
  }

  lemma BookedAs(ks: Keys, id: string, e: Event, k2: Key)
    requires DistinctIds(ks) && k2.id == id
    ensures StoredOver(ks, Store(Apply(ks, id, e), k2), k2)
  {
    StoreKeeps(Apply(ks, id, e), k2);
    forall x
      ensures x != id ==> Find(Apply(ks, id, e), x) == Find(ks, x)
    {
      ApplyFind(ks, id, e, x);
    }
  }

  /** A usage record leaves the id and the failures alone. */
  lemma BookedIs(m: Monitor, ks: Keys, k: Key, e: Event, rec: Rec, now: int) returns (k2: Key)
    ensures Booked(m, ks, k, e, rec, now).0 == Store(Apply(ks, k.id, e), k2)
    ensures k2.id == k.id && (Find(ks, k.id).Some? ==> k2.failureCount == On(k, e).failureCount)
  {
    k2 := Record(m, if Find(ks, k.id).Some? then On(k, e) else k, rec, now);
  }

  /** Only the key the event names changes, and it alone may join the others. */
  ghost predicate Kept(ks: Keys, after: Keys, ev: Ev) {
    && DistinctIds(after)
    && (forall x :: x != ev.id ==> Find(after, x) == Find(ks, x))
    && (Find(after, ev.id).Some? <==> Find(ks, ev.id).Some? || ev.Failed? || ev.Done?)
    && (Find(ks, ev.id).Some? && !ev.Done? ==>
          Find(after, ev.id).value.failureCount
          == Find(ks, ev.id).value.failureCount + (if ev.Failed? || ev.Undecryptable? then 1 else 0))
  }

  lemma FinishedKeeps(ks: Keys, k: Key, e: Event, k2: Key, ev: Ev, after: Keys)
    requires DistinctIds(ks) && k.id == ev.id && (Find(ks, k.id).Some? ==> Find(ks, k.id).value == k)
    requires k2.id == k.id && (Find(ks, k.id).Some? ==> k2.failureCount == On(k, e).failureCount)
    requires ((ev.Failed? && e.Failure?) || ev.Done?) && after == Store(Apply(ks, k.id, e), k2)
    ensures Kept(ks, after, ev)
  {
    BookedAs(ks, k.id, e, k2);
  }

  lemma DeniedKeeps(ks: Keys, ev: Ev, now: int)
    requires DistinctIds(ks) && ev.Undecryptable?
    ensures Kept(ks, Apply(ks, ev.id, Failure(AuthFailed, now)), ev)
  {
    forall x
      ensures x != ev.id ==> Find(Apply(ks, ev.id, Failure(AuthFailed, now)), x) == Find(ks, x)
    {
      ApplyFind(ks, ev.id, Failure(AuthFailed, now), x);
    }
    ApplyFind(ks, ev.id, Failure(AuthFailed, now), ev.id);
  }

  lemma EffectKeeps(m: Monitor, ks: Keys, k: Key, ev: Ev)
    requires DistinctIds(ks) && k.id == ev.id && (Find(ks, k.id).Some? ==> Find(ks, k.id).value == k)
    ensures Kept(ks, Effect(m, ks, k, ev).0, ev)
  {
    match ev
    case Undecryptable(_, _, now) => DeniedKeeps(ks, ev, now);
    case Failed(_, _, category, today, now) =>
      var k2 := BookedIs(m, ks, k, Failure(category, now), ErrorRec(category, today), now);
      FinishedKeeps(ks, k, Failure(category, now), k2, ev, Effect(m, ks, k, ev).0);
    case Done(_, rec, _, now) =>
      var k2 := BookedIs(m, ks, k, Success(now), rec, now);
      FinishedKeeps(ks, k, Success(now), k2, ev, Effect(m, ks, k, ev).0);
    case _ =>
  }

  lemma CurrentIsFound(ks: Keys, held: string -> Key, id: string)
    requires held(id).id == id
    ensures Current(ks, held, id).id == id
    ensures Find(ks, Current(ks, held, id).id).Some? ==> Find(ks, Current(ks, held, id).id).value == Current(ks, held, id)
  {
    FindMember(ks, id);
  }

  /** The upstream's answer is no answer for the client. */
  predicate Unusable(stream: bool, status: int) {
    if stream then status >= 400 else status < 200 || status >= 300
  }

  /** Today's use has reached the key's quota, and the monitor acts on it. */
  predicate Over(m: Monitor, k: Key, today: Date) {
    m.warnEnabled && m.threshold <= 1.0 && 0 < k.dailyQuota <= TodayUsed(k.usage, today)
  }

  /** What a failed call makes of the key, by what the failure was. */
  predicate FailedAs(k: Key, k': Key, now: int, exhausts: bool, denies: bool, over: bool) {
    var trips := denies || k.failureCount + 1 >= 3;
    && k'.failureCount == k.failureCount + 1
    && k'.status == (if over || exhausts then Exhausted else if trips then Error else k.status)
    && k'.cooldownUntil == (if exhausts then Some(now + 1800000) else if trips then Some(now + 300000)
                            else k.cooldownUntil)
  }

  lemma OnAfterFailure(m: Monitor, k: Key, category: Category, today: Date, now: int)
    ensures var k' := Record(m, OnFailure(k, category, now), ErrorRec(category, today), now);
            FailedAs(k, k', now, category == QuotaGone, category == AuthFailed, Over(m, k, today))
  {
    ExhaustedExactly(m, OnFailure(k, category, now), ErrorRec(category, today), now);
  }

  lemma BookedKey(m: Monitor, ks: Keys, k: Key, e: Event, rec: Rec, now: int)
    requires DistinctIds(ks) && Find(ks, k.id) == Some(k)
    ensures Find(Booked(m, ks, k, e, rec, now).0, k.id) == Some(Record(m, On(k, e), rec, now))
  {
    StoreKeeps(Apply(ks, k.id, e), Record(m, On(k, e), rec, now));
  }

  /**
   * What an unusable answer makes of its key, exactly. A 429 only counts, whatever its text says,
   * until the third failure in a row puts the key in ERROR for 300 s. Any other status with a text
   * that names an exhausted quota makes it EXHAUSTED for 1800 s. A 401 or 403 without such a text
   * puts it in ERROR at once, and the rest counts like a 429. A key over its quota is EXHAUSTED anyway.
   */
  lemma UnusableAnswerExactly(m: Monitor, ks: Keys, k: Key, stream: bool, c: Circumstance)
    requires DistinctIds(ks) && Find(ks, k.id) == Some(k) && c.rpmAllowed && c.decrypts && c.hasBase
    requires c.answer.Responded? && Unusable(stream, c.answer.status)
    ensures var ev, status, text := EventOf(k.id, stream, c), c.answer.status, c.answer.quotaText;
            var after := Find(Effect(m, ks, k, ev).0, k.id);
            && ev.Failed? && ev.status == status && after.Some?
            && FailedAs(k, after.value, c.now, status != 429 && text,
                        !text && (status == 401 || status == 403), Over(m, k, c.today))
  {
    var ev := EventOf(k.id, stream, c);
    BookedKey(m, ks, k, Failure(ev.category, c.now), ErrorRec(ev.category, c.today), c.now);
    OnAfterFailure(m, k, ev.category, c.today, c.now);
  }

  /** What the other ways to fail make of it: an upstream error by its category, a key that cannot be decrypted. */
  lemma OtherFailureExactly(m: Monitor, ks: Keys, k: Key, stream: bool, c: Circumstance)
    requires DistinctIds(ks) && Find(ks, k.id) == Some(k) && c.rpmAllowed
    requires !c.decrypts || (c.hasBase && c.answer.Raised?)
    ensures var ev := EventOf(k.id, stream, c);
            var after := Find(Effect(m, ks, k, ev).0, k.id);
            && after.Some?
            && (!c.decrypts ==> ev.Undecryptable? && FailedAs(k, after.value, c.now, false, true, false))
            && (c.decrypts ==>
                  && ev.Failed? && ev.status == c.answer.status
                  && FailedAs(k, after.value, c.now, c.answer.category == QuotaGone, c.answer.category == AuthFailed,
                              Over(m, k, c.today)))
  {
    if c.decrypts {
      BookedKey(m, ks, k, Failure(c.answer.category, c.now), ErrorRec(c.answer.category, c.today), c.now);
      OnAfterFailure(m, k, c.answer.category, c.today, c.now);
    } else {
      ApplyFind(ks, k.id, Failure(AuthFailed, c.now), k.id);
    }
  }

  /**
   * An answer that is passed on heals its key and is counted with its tokens; a key that has now
   * used up its quota ends EXHAUSTED all the same.
   */
  lemma GoodAnswerExactly(m: Monitor, ks: Keys, k: Key, c: Circumstance)
    requires DistinctIds(ks) && Find(ks, k.id) == Some(k) && c.rpmAllowed && c.decrypts && c.hasBase
    requires c.answer.Responded? && 200 <= c.answer.status < 300
    ensures var after := Find(Effect(m, ks, k, EventOf(k.id, false, c)).0, k.id);
            var tokens := c.answer.prompt + c.answer.completion;
            && after.Some? && after.value.failureCount == 0 && after.value.cooldownUntil == None
            && TodayUsed(after.value.usage, c.today) == TodayUsed(k.usage, c.today) + tokens
            && TodayRequests(after.value.usage, c.today) == TodayRequests(k.usage, c.today) + 1
            && TodayErrors(after.value.usage, c.today) == TodayErrors(k.usage, c.today)
            && after.value.status == (if Over(m, after.value, c.today) then Exhausted else Active)
    ensures Tables.StatsItem(Tables.StatKey(c.today, k.provider, k.id),
                             Tables.Stat(1, 0, c.answer.prompt, c.answer.completion, c.answer.cost))
            in Effect(m, ks, k, EventOf(k.id, false, c)).1
  {
    var rec := Rec(c.today, c.answer.prompt, c.answer.completion, c.answer.status, c.answer.cost);
    BookedKey(m, ks, k, Success(c.now), rec, c.now);
    ExhaustedExactly(m, OnSuccess(k, c.now), rec, c.now);
    var rows := Effect(m, ks, k, EventOf(k.id, false, c)).1;
    assert rows[|rows| - 2] == StatsOf(k.provider, k.id, rec);
  }

  /** An attempt that reaches no verdict on its key leaves everything as it was. */
  lemma NoVerdict(m: Monitor, ks: Keys, k: Key, stream: bool, c: Circumstance)
    requires || !c.rpmAllowed || (c.decrypts && !c.hasBase)
             || (c.decrypts && c.hasBase && c.answer.Crashed?)
             || (c.decrypts && c.hasBase && stream && c.answer.Responded? && c.answer.status < 400)
    ensures Effect(m, ks, k, EventOf(k.id, stream, c)) == (ks, [])
  {
  }

  lemma {:induction false} LastFailureAt(trace: seq<Ev>)
    ensures (forall i :: 0 <= i < |trace| ==> !trace[i].Failed?) ==> LastFailure(trace) == (502, Other)
    ensures forall i :: 0 <= i < |trace| && trace[i].Failed? && (forall j :: i < j < |trace| ==> !trace[j].Failed?) ==>
              LastFailure(trace) == (trace[i].status, trace[i].category)
  {
    if trace != [] {
      assert Last(trace) == trace[|trace| - 1];
      assert forall j :: 0 <= j < |trace| - 1 ==> Init(trace)[j] == trace[j];
      LastFailureAt(Init(trace));
    }
  }

  /** The client is told of the last upstream failure, or of a bare 502 if there was none. */
  lemma ToldLastFailure(trace: seq<Ev>, env: seq<Circumstance>)
    requires |trace| <= |env| && forall i :: 0 <= i < |trace| ==> !Final(trace[i])
    ensures (forall i :: 0 <= i < |trace| ==> !trace[i].Failed?) ==> ResultOf(trace, env) == GaveUp(502, Other)
    ensures forall i :: 0 <= i < |trace| && trace[i].Failed? && (forall j :: i < j < |trace| ==> !trace[j].Failed?) ==>
              ResultOf(trace, env) == GaveUp(trace[i].status, trace[i].category)
  {
    LastFailureAt(trace);
    assert trace != [] ==> Last(trace) == trace[|trace| - 1];
  }

  /** A final event is the client's answer: the upstream's own status, or the exception. */
  lemma ToldAnswer(trace: seq<Ev>, stream: bool, env: seq<Circumstance>)
    requires 0 < |trace| <= |env| && Proper(trace, stream, env) && Final(Last(trace))
    ensures var c := env[|trace| - 1];
            ResultOf(trace, env) == if c.answer.Responded? then Answered(Last(trace).id, c.answer.status) else Exception
    ensures var c := env[|trace| - 1];
            c.rpmAllowed && c.decrypts && c.hasBase
            && (c.answer.Crashed? || (c.answer.Responded? && !Unusable(stream, c.answer.status)))
  {
    assert Last(trace) == trace[|trace| - 1];
  }

  /** Failures recorded on a key, and error rows queued for it, by a list of events. */
  ghost function CallsFailed(trace: seq<Ev>, id: string): nat {
    if trace == [] then 0
    else CallsFailed(Init(trace), id) + (if Last(trace).Failed? && Last(trace).id == id then 1 else 0)
  }

  ghost function ErrorRows(rows: seq<Tables.Item>, id: string): nat {
    if rows == [] then 0
    else ErrorRows(Init(rows), id)
         + (var row := Last(rows); if row.StatsItem? && row.pk.keyId == id && row.delta.errors == 1 then 1 else 0)
  }

  lemma {:induction false} ErrorRowsAppend(a: seq<Tables.Item>, b: seq<Tables.Item>, id: string)
    ensures ErrorRows(a + b, id) == ErrorRows(a, id) + ErrorRows(b, id)
  {
    if b == [] {
      assert a + b == a;
    } else {
      ErrorRowsAppend(a, Init(b), id);
      assert Init(a + b) == a + Init(b);
    }
  }

  lemma NoErrorInSnapshot(ks: Keys, key: string, today: Date, id: string)
    ensures ErrorRows(Snapshot(ks, key, today), id) == 0
  {
    var rows := Snapshot(ks, key, today);
    if rows != [] {
      assert Init(rows) == [];
    }
  }

  lemma BookedErrors(m: Monitor, ks: Keys, k: Key, e: Event, rec: Rec, now: int, id: string)
    ensures ErrorRows(Booked(m, ks, k, e, rec, now).1, id) == if k.id == id && rec.IsError() then 1 else 0
  {
    var rows := Booked(m, ks, k, e, rec, now).1;
    var first, second := rows[|rows| - 2], rows[|rows| - 1];
    var before := Snapshot(Apply(ks, k.id, e), k.id, rec.date);
    NoErrorInSnapshot(Apply(ks, k.id, e), k.id, rec.date, id);
    ErrorRowsAppend(before, [first, second], id);
    assert rows == before + [first, second];
    assert Init([first, second]) == [first] && Init([first]) == [];
    assert ErrorRows([first], id) == if k.id == id && rec.IsError() then 1 else 0;
  }

  lemma DoneIsGood(id: string, stream: bool, c: Circumstance)
    requires EventOf(id, stream, c).Done?
    ensures !EventOf(id, stream, c).rec.IsError()
  {
  }

  /** Each failed upstream call queues exactly one error row, and nothing else does. */
  lemma {:induction false} OneErrorRowPerFailure(m: Monitor, b: Books, held: string -> Key, trace: seq<Ev>,
                                                 stream: bool, env: seq<Circumstance>, id: string)
    requires |trace| <= |env| && Filed(held, trace)
    requires forall i :: 0 <= i < |trace| ==> trace[i] == EventOf(trace[i].id, stream, env[i])
    ensures ErrorRows(Account(m, b, held, trace, env).queue, id) == ErrorRows(b.queue, id) + CallsFailed(trace, id)
  {
    if trace != [] {
      OneErrorRowPerFailure(m, b, held, Init(trace), stream, env, id);
      var n := |trace| - 1;
      var before := Account(m, b, held, Init(trace), env);
      var ks := Spared(before.keys, env[n].deleted);
      assert Last(trace) == trace[n] == EventOf(trace[n].id, stream, env[n]);
      CurrentId(ks, held, trace[n].id);
      var k := Current(ks, held, trace[n].id);
      EffectErrors(m, ks, k, trace[n], stream, env[n], id);
      ErrorRowsAppend(before.queue, Effect(m, ks, k, trace[n]).1, id);
    }
  }

  lemma EffectErrors(m: Monitor, ks: Keys, k: Key, ev: Ev, stream: bool, c: Circumstance, id: string)
    requires k.id == ev.id && ev == EventOf(ev.id, stream, c)
    ensures ErrorRows(Effect(m, ks, k, ev).1, id) == if ev.Failed? && ev.id == id then 1 else 0
  {
    match ev
    case Undecryptable(_, today, now) => NoErrorInSnapshot(Apply(ks, k.id, Failure(AuthFailed, now)), k.id, today, id);
    case Failed(_, _, category, today, now) =>
      BookedErrors(m, ks, k, Failure(category, now), ErrorRec(category, today), now, id);
    case Done(_, rec, _, now) =>
      DoneIsGood(ev.id, stream, c);
      BookedErrors(m, ks, k, Success(now), rec, now, id);
    case _ =>
  }

  ghost function FailedOn(trace: seq<Ev>, id: string): nat {
    if trace == [] then 0
    else FailedOn(Init(trace), id)
         + (if (Last(trace).Failed? || Last(trace).Undecryptable?) && Last(trace).id == id then 1 else 0)
  }

  lemma {:induction false} AccountKeeps(m: Monitor, b: Books, held: string -> Key, trace: seq<Ev>, env: seq<Circumstance>)
    requires |trace| <= |env| && DistinctIds(b.keys) && Filed(held, trace)
    ensures DistinctIds(Account(m, b, held, trace, env).keys)
    decreases trace, 2
  {
    if trace != [] {
      LastAttempt(m, b, held, trace, env, "");
    }
  }

  /** What the last attempt does to the keys: those deleted meanwhile are gone, then its event takes effect. */
  lemma LastAttempt(m: Monitor, b: Books, held: string -> Key, trace: seq<Ev>, env: seq<Circumstance>, id: string)
    requires 0 < |trace| <= |env| && DistinctIds(b.keys) && Filed(held, trace)
    ensures var before, deleted := Account(m, b, held, Init(trace), env).keys, env[|trace| - 1].deleted;
            && Kept(Spared(before, deleted), Account(m, b, held, trace, env).keys, Last(trace))
            && Find(Spared(before, deleted), id) == if id in deleted then None else Find(before, id)
    decreases trace, 1
  {
    var n := |trace| - 1;
    assert Last(trace) == trace[n];
    AccountKeeps(m, b, held, Init(trace), env);
    var before := Account(m, b, held, Init(trace), env).keys;
    var ks := Spared(before, env[n].deleted);
    SparedFind(before, env[n].deleted, id);
    SparedDistinct(before, env[n].deleted);
    CurrentIsFound(ks, held, trace[n].id);
    EffectKeeps(m, ks, Current(ks, held, trace[n].id), trace[n]);
  }

  /** Nobody deletes the key while the first `n` attempts wait. */
  predicate Undeleted(env: seq<Circumstance>, n: nat, id: string)
    requires n <= |env|
  {
    forall j :: 0 <= j < n ==> id !in env[j].deleted
  }

  /**
   * What the loop leaves on a key: one that nobody deletes, and that was not the one that answered,
   * has had exactly one failure recorded for each failed call or failed decryption.
   */
  lemma {:induction false} FailuresRecorded(m: Monitor, b: Books, held: string -> Key, trace: seq<Ev>,
                                            env: seq<Circumstance>, id: string)
    requires |trace| <= |env| && DistinctIds(b.keys) && Filed(held, trace)
    requires Find(b.keys, id).Some? && Undeleted(env, |trace|, id)
    requires forall j :: 0 <= j < |trace| && trace[j].id == id ==> !trace[j].Done?
    ensures var after := Find(Account(m, b, held, trace, env).keys, id);
            after.Some? && after.value.failureCount == Find(b.keys, id).value.failureCount + FailedOn(trace, id)
  {
    if trace != [] {
      FailuresRecorded(m, b, held, Init(trace), env, id);
      LastAttempt(m, b, held, trace, env, id);
      assert Last(trace) == trace[|trace| - 1];
    }
  }

  /** Attempt `i` recorded a call of the key, and nobody has deleted the key while a later one waited. */
  predicate RecordedLast(trace: seq<Ev>, env: seq<Circumstance>, id: string, i: int)
    requires |trace| <= |env|
  {
    && 0 <= i < |trace| && trace[i].id == id && (trace[i].Failed? || trace[i].Done?)
    && forall j :: i < j < |trace| ==> id !in env[j].deleted
  }

  /**
   * Which keys the request leaves in the cache, exactly: those that were there and that nobody
   * deleted, and every one, deleted or not, whose call was recorded, failed or answered, after its
   * last deletion. A deleted key whose attempt ended before that, refused or undecryptable, stays deleted.
   */
  lemma {:induction false} RecordedKeysReturn(m: Monitor, b: Books, held: string -> Key, trace: seq<Ev>,
                                              env: seq<Circumstance>, id: string)
    requires |trace| <= |env| && DistinctIds(b.keys) && Filed(held, trace)
    ensures Find(Account(m, b, held, trace, env).keys, id).Some? <==>
            || (Find(b.keys, id).Some? && Undeleted(env, |trace|, id))
            || exists i :: RecordedLast(trace, env, id, i)
  {
    CachedAfter(m, b, held, trace, env, id);
    CachedExactly(trace, env, id, Find(b.keys, id).Some?);
  }

  /** Whether the key is in the cache after the attempts, step by step. */
  predicate Cached(trace: seq<Ev>, env: seq<Circumstance>, id: string, start: bool)
    requires |trace| <= |env|
  {
    if trace == [] then start
    else
      || (Cached(Init(trace), env, id, start) && id !in env[|trace| - 1].deleted)
      || (Last(trace).id == id && (Last(trace).Failed? || Last(trace).Done?))
  }

  lemma {:induction false} CachedAfter(m: Monitor, b: Books, held: string -> Key, trace: seq<Ev>,
                                       env: seq<Circumstance>, id: string)
    requires |trace| <= |env| && DistinctIds(b.keys) && Filed(held, trace)
    ensures Find(Account(m, b, held, trace, env).keys, id).Some? <==> Cached(trace, env, id, Find(b.keys, id).Some?)
  {
    if trace != [] {
      CachedAfter(m, b, held, Init(trace), env, id);
      Joins(m, b, held, trace, env, id);
    }
  }

  lemma {:induction false} CachedExactly(trace: seq<Ev>, env: seq<Circumstance>, id: string, start: bool)
    requires |trace| <= |env|
    ensures Cached(trace, env, id, start) <==>
            (start && Undeleted(env, |trace|, id)) || exists i :: RecordedLast(trace, env, id, i)
  {
    if trace != [] {
      CachedExactly(Init(trace), env, id, start);
      RecordedNext(trace, env, id);
    }
  }

  /** Who is in the cache after the last attempt. */
  lemma Joins(m: Monitor, b: Books, held: string -> Key, trace: seq<Ev>, env: seq<Circumstance>, id: string)
    requires 0 < |trace| <= |env| && DistinctIds(b.keys) && Filed(held, trace)
    ensures Find(Account(m, b, held, trace, env).keys, id).Some? <==>
            || (Find(Account(m, b, held, Init(trace), env).keys, id).Some? && id !in env[|trace| - 1].deleted)
            || (Last(trace).id == id && (Last(trace).Failed? || Last(trace).Done?))
  {
    LastAttempt(m, b, held, trace, env, id);
  }

  lemma RecordedNext(trace: seq<Ev>, env: seq<Circumstance>, id: string)
    requires 0 < |trace| <= |env|
    ensures (exists i :: RecordedLast(trace, env, id, i)) <==>
            || (Last(trace).id == id && (Last(trace).Failed? || Last(trace).Done?))
            || (id !in env[|trace| - 1].deleted && exists i :: RecordedLast(Init(trace), env, id, i))
  {
    var n := |trace| - 1;
    assert forall i :: 0 <= i < n ==> Init(trace)[i] == trace[i];
    if i :| RecordedLast(Init(trace), env, id, i) {
      assert id !in env[n].deleted ==> RecordedLast(trace, env, id, i);
    }
    if i :| RecordedLast(trace, env, id, i) {
      assert i < n ==> RecordedLast(Init(trace), env, id, i);
    }
    if Last(trace).id == id && (Last(trace).Failed? || Last(trace).Done?) {
      assert RecordedLast(trace, env, id, n);
    }
  }

  /** A refusal leaves nothing to report: a request that meets only refusals calls no upstream and ends in a bare 502. */
  lemma {:induction false} OnlyRefusals(trace: seq<Ev>, stream: bool, env: seq<Circumstance>)
    requires |trace| <= |env| && Proper(trace, stream, env)
    requires forall i :: 0 <= i < |trace| ==> !env[i].rpmAllowed
    ensures forall i :: 0 <= i < |trace| ==> trace[i].RpmRefused?
    ensures LastFailure(trace) == (502, Other) && ResultOf(trace, env) == GaveUp(502, Other)
  {
    if trace != [] {
      assert Last(trace) == trace[|trace| - 1];
      OnlyRefusals(Init(trace), stream, env);
    }
  }

  /** A trace the loop can end with: an answer, or as many attempts as it is allowed. */
  ghost predicate Complete(trace: seq<Ev>, ids: set<string>) {
    && Tried(trace) <= ids && |trace| <= Min(MAX_RETRY_KEYS, |ids|)
    && ((trace != [] && Final(Last(trace))) || |trace| == Min(MAX_RETRY_KEYS, |ids|))
  }

  ghost function TriedIds(trace: seq<Ev>): seq<string> { seq(|trace|, i requires 0 <= i < |trace| => trace[i].id) }

  /** Keys are tried once each. */
  lemma TriedCount(trace: seq<Ev>, stream: bool, env: seq<Circumstance>)
    requires |trace| <= |env| && Proper(trace, stream, env)
    ensures |Tried(trace)| == |trace|
  {
    var ids := TriedIds(trace);
    SetOfSize(ids);
    assert forall i :: 0 <= i < |trace| ==> ids[i] == trace[i].id && ids[i] in ids;
    assert SetOf(ids) == Tried(trace);
  }

  /** What the loop ends with is complete, even if a candidate was listed twice. */
  lemma LoopCompletes(trace: seq<Ev>, stream: bool, env: seq<Circumstance>, ids: set<string>, listed: nat)
    requires |trace| <= |env| && Proper(trace, stream, env) && Tried(trace) <= ids && |ids| <= listed
    requires |trace| <= Min(MAX_RETRY_KEYS, listed)
    requires (trace != [] && Final(Last(trace))) || |trace| == Min(MAX_RETRY_KEYS, listed) || Tried(trace) == ids
    ensures Complete(trace, ids)
  {
    TriedCount(trace, stream, env);
    SubsetSize(Tried(trace), ids);
  }

  /** A complete run on the candidates `ids`, of which exactly those in `over` are above their own limit. */
  ghost predicate Plays(trace: seq<Ev>, stream: bool, env: seq<Circumstance>, ids: set<string>, over: set<string>) {
    && |trace| <= |env| && Proper(trace, stream, env) && Complete(trace, ids)
    && forall i :: 0 <= i < |trace| ==> (!env[i].rpmAllowed <==> trace[i].id in over)
  }

  /** Some attempt got past the key limiter. */
  ghost predicate PastLimiter(trace: seq<Ev>, env: seq<Circumstance>)
    requires |trace| <= |env|
  {
    exists i :: 0 <= i < |trace| && env[i].rpmAllowed
  }

  ghost predicate AlwaysPast(ids: set<string>, over: set<string>) {
    forall trace, stream, env :: Plays(trace, stream, env, ids, over) ==> PastLimiter(trace, env)
  }

  lemma EnoughKeys(trace: seq<Ev>, stream: bool, env: seq<Circumstance>, ids: set<string>, over: set<string>)
    requires Plays(trace, stream, env, ids, over) && |over * ids| < Min(MAX_RETRY_KEYS, |ids|)
    ensures PastLimiter(trace, env)
  {
    if !PastLimiter(trace, env) {
      TriedCount(trace, stream, env);
      forall i | 0 <= i < |trace|
        ensures trace[i].id in over && !Final(trace[i])
      {
        assert !env[i].rpmAllowed;
      }
      assert trace != [] ==> Last(trace) == trace[|trace| - 1];
      SubsetSize(Tried(trace), over * ids);
    }
  }

  /** The run in which every attempt falls on a key above its limit. */
  lemma UnluckyRun(ids: set<string>, over: set<string>, stream: bool)
    returns (trace: seq<Ev>, env: seq<Circumstance>)
    requires |over * ids| >= Min(MAX_RETRY_KEYS, |ids|)
    ensures Plays(trace, stream, env, ids, over) && !PastLimiter(trace, env)
    ensures ResultOf(trace, env) == GaveUp(502, Other)
  {
    var n := Min(MAX_RETRY_KEYS, |ids|);
    var limited := Enumerate(over * ids);
    SetOfSize(limited);
    trace := seq(n, i requires 0 <= i < n => RpmRefused(limited[i]));
    env := seq(n, i => Circumstance(false, true, true, Crashed, 0.0, 0.0, Date(2025, 1, 1), 0, []));
    forall i | 0 <= i < n
      ensures trace[i].id in over && trace[i].id in ids
    {
      assert limited[i] in SetOf(limited);
    }
    OnlyRefusals(trace, stream, env);
  }

  /**
   * Refusals by the key limiter use up attempts. Whatever order the strategy tries the candidates
   * in, some attempt gets past the limiter, exactly when fewer candidates are above their limit
   * than there are attempts.
   */
  lemma PastLimiterExactly(ids: set<string>, over: set<string>)
    ensures AlwaysPast(ids, over) <==> |over * ids| < Min(MAX_RETRY_KEYS, |ids|)
  {
    if |over * ids| < Min(MAX_RETRY_KEYS, |ids|) {
      forall trace, stream, env | Plays(trace, stream, env, ids, over)
        ensures PastLimiter(trace, env)
      {
        EnoughKeys(trace, stream, env, ids, over);
      }
    } else {
      var trace, env := UnluckyRun(ids, over, false);
    }
  }

  /** Four candidates, three of them above their limit: a request can end in 502 with the fourth never tried. */
  lemma FourthKeyNeverTried(stream: bool) returns (trace: seq<Ev>, env: seq<Circumstance>)
    ensures Plays(trace, stream, env, {"a", "b", "c", "d"}, {"a", "b", "c"})
    ensures "d" !in Tried(trace) && ResultOf(trace, env) == GaveUp(502, Other)
  {
    var ids, over := {"a", "b", "c", "d"}, {"a", "b", "c"};
    assert over * ids == over && |over| == 3 && |ids| == 4;
    trace, env := UnluckyRun(ids, over, stream);
    assert forall i :: 0 <= i < |trace| ==> !env[i].rpmAllowed;
  }
}

module Failover {
  import opened Prelude
  import opened ApiKeys
  import opened KeyLifecycle
  import opened KeyManager
  import opened QuotaSpec
  import opened QuotaMonitor
  import opened BalancerSpec
  import opened LoadBalancer
  import opened FailoverSpec
  import opened KeyRows

  /** The gateway; its key manager is the one whose snapshots the quota monitor's callback takes. */
  class Gateway {
    const balancer: LoadBalancer
    const quota: QuotaMonitor

    constructor (balancer: LoadBalancer, quota: QuotaMonitor)
      ensures this.balancer == balancer && this.quota == quota
    {
      this.balancer, this.quota := balancer, quota;
    }

    /** The cache has gained the record at most. */
    twostate predicate Kept(key: ApiKey)
      reads quota.keys
    {
      quota.keys.Valid() &&
      quota.keys.cache == if key in old(quota.keys.cache) then old(quota.keys.cache) else old(quota.keys.cache) + [key]
    }

    /** Lifecycle event and usage record of one call, the books of `Booked`. */
    method Book(key: ApiKey, e: Event, rec: Rec, now: int)
      requires quota.keys.Valid() && quota.keys.Own(key)
      requires e == Success(now) || (e.Failure? && e.now == now)
      modifies key, quota`alerts, quota.keys`cache, quota.keys.db`pending, quota.keys.db`wake
      ensures Kept(key)
      ensures (quota.keys.View(), quota.keys.db.pending) ==
              var (ks, rows) := Booked(quota.config, old(quota.keys.View()), old(key.Model()), e, rec, now);
              (ks, old(quota.keys.db.pending) + rows)
    {
      ghost var ks, k, queue := quota.keys.View(), key.Model(), quota.keys.db.pending;
      quota.keys.Held(key);
      Report(key, e, rec.date, now);
      ghost var ks1 := quota.keys.View();
      ghost var snapshot := Snapshot(ks1, k.id, rec.date);
      var _ := quota.Record(key, rec.statusCode, rec.prompt, rec.completion, rec.cost, rec.date, now);
      ghost var rows := [StatsOf(k.provider, k.id, rec), ItemOf(key.Model(), rec.date)];
      assert queue + snapshot + rows == queue + (snapshot + rows);
    }

    /** `record_success` or `record_failure`, by id: a record that is not cached stays as it is. */
    method Report(key: ApiKey, e: Event, today: Date, now: int)
      requires quota.keys.Valid() && quota.keys.Own(key)
      requires e == Success(now) || (e.Failure? && e.now == now)
      modifies quota.keys`cache, key, quota.keys.db`pending, quota.keys.db`wake
      ensures quota.keys.Valid() && quota.keys.cache == old(quota.keys.cache)
      ensures quota.keys.View() == Apply(old(quota.keys.View()), key.id, e)
      ensures key.Model() == if key in quota.keys.cache then On(old(key.Model()), e) else old(key.Model())
      ensures quota.keys.db.pending == old(quota.keys.db.pending) + Snapshot(quota.keys.View(), key.id, today)
    {
      ghost var before := quota.keys.View();
      assert quota.keys.Under(key.id) <= {key};
      match e {
        case Success(_) => quota.keys.RecordSuccess(key.id, now, today);
        case Failure(category, _) => quota.keys.RecordFailure(key.id, category, now, today);
      }
      if key in quota.keys.cache {
        ghost var i :| 0 <= i < |quota.keys.cache| && quota.keys.cache[i] == key;
        assert quota.keys.View()[i] == On(before[i], e);
      }
    }

    /** `_after_failure`: one failure on the key, one error row in the queue. */
    method AfterFailure(key: ApiKey, status: int, category: Category, today: Date, now: int)
      requires quota.keys.Valid() && quota.keys.Own(key)
      modifies key, quota`alerts, quota.keys`cache, quota.keys.db`pending, quota.keys.db`wake
      ensures Kept(key)
      ensures (quota.keys.View(), quota.keys.db.pending) ==
              Booking(quota.config, old(quota.keys.View()), old(quota.keys.db.pending), old(key.Model()),
                      Failed(key.id, status, category, today, now))
    {
      Book(key, Failure(category, now), ErrorRec(category, today), now);
    }

    /** The bookkeeping of a completed call. */
    method AfterSuccess(key: ApiKey, rec: Rec, latencyMs: real, now: int)
      requires quota.keys.Valid() && quota.keys.Own(key)
      modifies key, balancer`latencies, quota`alerts, quota.keys`cache, quota.keys.db`pending, quota.keys.db`wake
      ensures Kept(key)
      ensures (quota.keys.View(), quota.keys.db.pending) ==
              Booking(quota.config, old(quota.keys.View()), old(quota.keys.db.pending), old(key.Model()),
                      Done(key.id, rec, latencyMs, now))
      ensures balancer.latencies == PushLatency(old(balancer.latencies), key.id, latencyMs)
    {
      balancer.ReportLatency(key.id, latencyMs);
      Book(key, Success(now), rec, now);
    }

    /** One pass through the loop body, for the key picked; its record may have been deleted since. */
    method Attempt(key: ApiKey, stream: bool, c: Circumstance) returns (ev: Ev)
      requires quota.keys.Valid() && quota.keys.Own(key)
      requires forall id :: ActiveCount(balancer.active, id) >= 0
      modifies key, balancer`active, balancer`latencies, quota`alerts, quota.keys`cache, quota.keys.db`pending,
               quota.keys.db`wake
      ensures ev == EventOf(key.id, stream, c)
      ensures quota.keys.Valid() && (quota.keys.cache == old(quota.keys.cache) || Kept(key))
      ensures (quota.keys.View(), quota.keys.db.pending) ==
              Booking(quota.config, old(quota.keys.View()), old(quota.keys.db.pending), old(key.Model()), ev)
      ensures forall id :: ActiveCount(balancer.active, id) == old(ActiveCount(balancer.active, id))
      ensures balancer.latencies ==
              if ev.Done? then PushLatency(old(balancer.latencies), key.id, c.latencyMs) else old(balancer.latencies)
    {
      ghost var queue := quota.keys.db.pending;
      assert queue + [] == queue;
      if !c.rpmAllowed {
        return RpmRefused(key.id);
      }
      if !c.decrypts {
        Report(key, Failure(AuthFailed, c.now), c.today, c.now);
        return Undecryptable(key.id, c.today, c.now);
      }
      if !c.hasBase {
        return NoBase(key.id);
      }
      balancer.ReportActive(key.id, 1);
      ev := Forward(key, stream, c);
      balancer.ReportActive(key.id, -1);
    }

    /** The `try` block between the two `report_active` calls. */
    method Forward(key: ApiKey, stream: bool, c: Circumstance) returns (ev: Ev)
      requires quota.keys.Valid() && quota.keys.Own(key)
      requires c.rpmAllowed && c.decrypts && c.hasBase
      modifies key, balancer`latencies, quota`alerts, quota.keys`cache, quota.keys.db`pending, quota.keys.db`wake
      ensures ev == EventOf(key.id, stream, c)
      ensures quota.keys.Valid() && (quota.keys.cache == old(quota.keys.cache) || Kept(key))
      ensures (quota.keys.View(), quota.keys.db.pending) ==
              Booking(quota.config, old(quota.keys.View()), old(quota.keys.db.pending), old(key.Model()), ev)
      ensures balancer.latencies ==
              if ev.Done? then PushLatency(old(balancer.latencies), key.id, c.latencyMs) else old(balancer.latencies)
    {
      ghost var queue := quota.keys.db.pending;
      assert queue + [] == queue;
      match c.answer
      case Responded(status, quotaText, prompt, completion, cost) =>
        if stream {
          if status >= 400 {
            var category := Classify(status, quotaText);
            AfterFailure(key, status, category, c.today, c.now);
            return Failed(key.id, status, category, c.today, c.now);
          }
          return Streaming(key.id);
        } else {
          if 200 <= status < 300 {
            var rec := Rec(c.today, prompt, completion, status, cost);
            AfterSuccess(key, rec, c.latencyMs, c.now);
            return Done(key.id, rec, c.latencyMs, c.now);
          }
          var category := Classify(status, quotaText);
          AfterFailure(key, status, category, c.today, c.now);
          return Failed(key.id, status, category, c.today, c.now);
        }
      case Raised(status, category) =>
        AfterFailure(key, status, category, c.today, c.now);
        return Failed(key.id, status, category, c.today, c.now);
      case Crashed =>
        return Broke(key.id);
    }

    /** `[k for k in keys if k.id not in tried]`. */
    static method Untried(candidates: seq<ApiKey>, tried: set<string>) returns (rest: seq<ApiKey>)
      ensures forall k :: k in rest <==> k in candidates && k.id !in tried
    {
      rest := [];
      var i := 0;
      while i < |candidates|
        invariant 0 <= i <= |candidates|
        invariant forall k :: k in rest <==> k in candidates[..i] && k.id !in tried
      {
        if candidates[i].id !in tried {
          rest := rest + [candidates[i]];
        }
        i := i + 1;
      }
      assert candidates[..i] == candidates;
    }

    /** The record behind a picked value. */
    static method RecordOf(ks: seq<ApiKey>, k: Key) returns (key: ApiKey)
      requires k in ModelsOf(ks)
      ensures key in ks && key.Model() == k
    {
      var i := 0;
      while ks[i].Model() != k
        invariant 0 <= i < |ks| && k in ModelsOf(ks)
        invariant forall j :: 0 <= j < i ==> ks[j].Model() != k
        decreases |ks| - i
      {
        assert exists j :: i < j < |ks| && ks[j].Model() == k by {
          var j :| 0 <= j < |ks| && ModelsOf(ks)[j] == k;
        }
        i := i + 1;
      }
      return ks[i];
    }

    static ghost function IdsOf(candidates: seq<ApiKey>): set<string> {
      set k | k in candidates :: k.id
    }

    static lemma {:induction false} IdCount(candidates: seq<ApiKey>)
      ensures |IdsOf(candidates)| <= |candidates|
    {
      if candidates != [] {
        var init, last := Init(candidates), Last(candidates);
        IdCount(init);
        assert candidates == init + [last];
        assert IdsOf(candidates) == IdsOf(init) + {last.id};
      }
    }

    /** Picks among the untried candidates, if any is left. */
    method Choose(candidates: seq<ApiKey>, tried: set<string>, strategy: Strategy, c: Circumstance)
      returns (r: Option<ApiKey>)
      modifies balancer`rr
      ensures r == None <==> IdsOf(candidates) <= tried
      ensures r.Some? ==> r.value in candidates && r.value.id !in tried
    {
      var rest := Untried(candidates, tried);
      var picked := balancer.Pick(ModelsOf(rest), strategy, c.draw, c.today, c.now);
      if picked == None {
        assert |rest| == |ModelsOf(rest)|;
        assert forall k :: k in candidates ==> k.id in tried;
        return None;
      }
      var key := RecordOf(rest, picked.value);
      assert key.id in IdsOf(candidates);
      return Some(key);
    }

    /** The candidates are records under ids of their own, cached or deleted since they were picked. */
    ghost predicate Records(candidates: seq<ApiKey>)
      reads quota.keys
    {
      && quota.keys.Valid()
      && (forall k :: k in candidates ==> quota.keys.Own(k))
      && (forall a, b :: a in candidates && b in candidates && a.id == b.id ==> a == b)
    }

    /** The records not tried yet are as they were when the request picked them. */
    ghost predicate Untouched(candidates: seq<ApiKey>, tried: set<string>, held: string -> Key)
      reads candidates
    {
      forall k :: k in candidates && k.id !in tried ==> k.Model() == held(k.id)
    }

    /** The keys, the queue and the tables as they are. */
    ghost function Now(): Books
      reads quota.keys, quota.keys.cache, quota.keys.db
    {
      Books(quota.keys.View(), quota.keys.db.pending, quota.keys.db.tables)
    }

    method PickAndAttempt(candidates: seq<ApiKey>, tried: set<string>, strategy: Strategy, stream: bool, c: Circumstance,
                          ghost held: string -> Key)
      returns (r: Option<Ev>)
      requires Records(candidates) && Untouched(candidates, tried, held)
      requires forall id :: ActiveCount(balancer.active, id) >= 0
      modifies candidates, balancer, quota`alerts, quota.keys`cache, quota.keys.db
      ensures Records(candidates)
      ensures r == None <==> IdsOf(candidates) <= tried
      ensures r == None ==> Now() == old(Now())
      ensures r.Some? ==> r.value.id in IdsOf(candidates) && r.value.id !in tried
                          && r.value == EventOf(r.value.id, stream, c)
                          && Untouched(candidates, tried + {r.value.id}, held)
                          && Now() == Attempted(quota.config, old(Now()), held, r.value, c.deleted)
      ensures forall id :: ActiveCount(balancer.active, id) == old(ActiveCount(balancer.active, id))
    {
      var key := Choose(candidates, tried, strategy, c);
      if key == None {
        return None;
      }
      var ev := Meet(candidates, tried, key.value, stream, c, held);
      return Some(ev);
    }

    /** The attempt on the candidate picked, and what others delete while it waits. */
    method Meet(candidates: seq<ApiKey>, ghost tried: set<string>, key: ApiKey, stream: bool, c: Circumstance,
                ghost held: string -> Key)
      returns (ev: Ev)
      requires Records(candidates) && Untouched(candidates, tried, held) && key in candidates && key.id !in tried
      requires forall id :: ActiveCount(balancer.active, id) >= 0
      modifies key, balancer`active, balancer`latencies, quota`alerts, quota.keys`cache, quota.keys.db
      ensures Records(candidates) && Untouched(candidates, tried + {ev.id}, held)
      ensures ev.id == key.id && ev == EventOf(ev.id, stream, c)
      ensures Now() == Attempted(quota.config, old(Now()), held, ev, c.deleted)
      ensures forall id :: ActiveCount(balancer.active, id) == old(ActiveCount(balancer.active, id))
    {
      ghost var b := Now();
      Interfere(candidates, c.deleted);
      ghost var spared := Now();
      ev := AttemptOn(candidates, tried, key, stream, c, held);
      DeletedFirst(quota.config, b, held, key.id, ev, c.deleted, spared, quota.keys.View(), quota.keys.db.pending);
    }

    /** What others do while the attempt waits: keys are deleted, the request keeps their records. */
    method Interfere(candidates: seq<ApiKey>, deleted: seq<string>)
      requires Records(candidates)
      modifies quota.keys`cache, quota.keys.db`tables
      ensures Records(candidates)
      ensures Now() == Without(old(Now()), deleted)
    {
      for i := 0 to |deleted|
        invariant Records(candidates)
        invariant quota.keys.View() == Spared(old(quota.keys.View()), deleted[..i])
        invariant quota.keys.db.tables == Cleared(old(quota.keys.db.tables), deleted[..i])
      {
        ghost var before := quota.keys.cache;
        RecordsApart(candidates);
        var _ := quota.keys.DeleteKey(deleted[i]);
        StillApart(candidates, before);
        assert Init(deleted[..i + 1]) == deleted[..i];
      }
      assert deleted[..|deleted|] == deleted;
    }

    /** The attempt on the candidate picked, and what stays true of the others. */
    method AttemptOn(candidates: seq<ApiKey>, ghost tried: set<string>, key: ApiKey, stream: bool, c: Circumstance,
                     ghost held: string -> Key)
      returns (ev: Ev)
      requires Records(candidates) && Untouched(candidates, tried, held) && key in candidates && key.id !in tried
      requires forall id :: ActiveCount(balancer.active, id) >= 0
      modifies key, balancer`active, balancer`latencies, quota`alerts, quota.keys`cache, quota.keys.db`pending,
               quota.keys.db`wake
      ensures Records(candidates) && Untouched(candidates, tried + {key.id}, held)
      ensures ev == EventOf(key.id, stream, c)
      ensures (quota.keys.View(), quota.keys.db.pending) ==
              Booking(quota.config, old(quota.keys.View()), old(quota.keys.db.pending),
                      old(Current(quota.keys.View(), held, key.id)), ev)
      ensures forall id :: ActiveCount(balancer.active, id) == old(ActiveCount(balancer.active, id))
    {
      quota.keys.Held(key);
      ghost var before := quota.keys.cache;
      RecordsApart(candidates);
      ev := Attempt(key, stream, c);
      StillRecords(candidates, before, key);
    }

    lemma RecordsApart(candidates: seq<ApiKey>)
      requires Records(candidates)
      ensures forall k, c :: k in candidates && c in quota.keys.cache && c.id == k.id ==> c == k
    {
      forall k, c | k in candidates && c in quota.keys.cache && c.id == k.id
        ensures c == k
      {
        assert c in quota.keys.Under(k.id);
      }
    }

    lemma StillApart(candidates: seq<ApiKey>, before: seq<ApiKey>)
      requires quota.keys.Valid() && forall c :: c in quota.keys.cache ==> c in before
      requires forall k, c :: k in candidates && c in before && c.id == k.id ==> c == k
      requires forall a, b :: a in candidates && b in candidates && a.id == b.id ==> a == b
      ensures Records(candidates)
    {
    }

    lemma StillRecords(candidates: seq<ApiKey>, before: seq<ApiKey>, key: ApiKey)
      requires quota.keys.Valid() && key in candidates
      requires quota.keys.cache == before || quota.keys.cache == before + [key]
      requires forall k, c :: k in candidates && c in before && c.id == k.id ==> c == k
      requires forall a, b :: a in candidates && b in candidates && a.id == b.id ==> a == b
      ensures Records(candidates)
    {
    }

    /** Keys, queue, tables and in-flight counts are what the events account for. */
    ghost predicate Accounted(b: Books, active: map<string, int>, trace: seq<Ev>, env: seq<Circumstance>,
                              held: string -> Key)
      requires |trace| <= |env|
      reads quota.keys, quota.keys.cache, balancer, quota.keys.db
    {
      && Now() == Account(quota.config, b, held, trace, env)
      && forall id :: ActiveCount(balancer.active, id) == ActiveCount(active, id)
    }

    /** One turn of the loop, with what it makes of the account so far. */
    method Round(candidates: seq<ApiKey>, tried: set<string>, strategy: Strategy, stream: bool, env: seq<Circumstance>,
                 ghost held: string -> Key, ghost b: Books, ghost active: map<string, int>, trace: seq<Ev>)
      returns (r: Option<Ev>)
      requires Records(candidates) && Untouched(candidates, tried, held)
      requires forall id :: ActiveCount(active, id) >= 0
      requires |trace| < |env| && Accounted(b, active, trace, env, held)
      modifies candidates, balancer, quota`alerts, quota.keys`cache, quota.keys.db
      ensures Records(candidates)
      ensures r == None <==> IdsOf(candidates) <= tried
      ensures r.Some? ==> r.value.id in IdsOf(candidates) && r.value.id !in tried
                          && r.value == EventOf(r.value.id, stream, env[|trace|])
                          && Untouched(candidates, tried + {r.value.id}, held)
      ensures r == None ==> Accounted(b, active, trace, env, held)
      ensures r.Some? ==> Accounted(b, active, trace + [r.value], env, held)
    {
      r := PickAndAttempt(candidates, tried, strategy, stream, env[|trace|], held);
      if r.Some? {
        AccountExtends(quota.config, b, held, trace, env, r.value);
      }
    }

    /** The same turn, with what it makes of the loop's own state. */
    method Turn(candidates: seq<ApiKey>, tried: set<string>, strategy: Strategy, stream: bool, env: seq<Circumstance>,
                ghost held: string -> Key, ghost b: Books, ghost active: map<string, int>, trace: seq<Ev>,
                status: int, category: Category)
      returns (r: Option<Ev>, more: seq<Ev>)
      requires Records(candidates) && Untouched(candidates, tried, held)
      requires forall id :: ActiveCount(active, id) >= 0
      requires |trace| < Min(MAX_RETRY_KEYS, |candidates|) && MAX_RETRY_KEYS <= |env|
      requires Accounted(b, active, trace, env, held)
      requires Sofar(trace, tried, IdsOf(candidates), stream, env, status, category)
      modifies candidates, balancer, quota`alerts, quota.keys`cache, quota.keys.db
      ensures Records(candidates) && |more| <= |env| && Accounted(b, active, more, env, held)
      ensures r == None ==> more == trace && Tried(trace) == IdsOf(candidates)
      ensures r.Some? ==> |more| == |trace| + 1 && Untouched(candidates, tried + {r.value.id}, held)
      ensures r.Some? && Final(r.value) ==>
                && Proper(more, stream, env) && Complete(more, IdsOf(candidates))
                && ResultOf(more, env) == FinalResult(r.value, env[|trace|])
      ensures r.Some? && !Final(r.value) ==>
                Sofar(more, tried + {r.value.id}, IdsOf(candidates), stream, env,
                      if r.value.Failed? then r.value.status else status,
                      if r.value.Failed? then r.value.category else category)
    {
      r := Round(candidates, tried, strategy, stream, env, held, b, active, trace);
      more := trace;
      if r.Some? {
        Extend(trace, r.value, tried, IdsOf(candidates), stream, env, status, category);
        more := trace + [r.value];
        if Final(r.value) {
          IdCount(candidates);
          LoopCompletes(more, stream, env, IdsOf(candidates), |candidates|);
        }
      }
    }

    /** The loop itself, started on an account that is in order. */
    method Loop(candidates: seq<ApiKey>, strategy: Strategy, stream: bool, env: seq<Circumstance>,
                ghost held: string -> Key, ghost b: Books, ghost active: map<string, int>)
      returns (result: Result, trace: seq<Ev>)
      requires Records(candidates) && Untouched(candidates, {}, held)
      requires forall id :: ActiveCount(active, id) >= 0
      requires |env| >= MAX_RETRY_KEYS && Accounted(b, active, [], env, held)
      modifies candidates, balancer, quota`alerts, quota.keys`cache, quota.keys.db
      ensures |trace| <= |env| && Proper(trace, stream, env)
      ensures quota.keys.Valid() && Accounted(b, active, trace, env, held)
      ensures Complete(trace, IdsOf(candidates))
      ensures result == ResultOf(trace, env)
    {
      trace := [];
      var tried: set<string> := {};
      var lastStatus, lastCategory := 502, Other;
      IdCount(candidates);
      for attempt := 0 to Min(MAX_RETRY_KEYS, |candidates|)
        invariant |trace| == attempt
        invariant Records(candidates) && Untouched(candidates, tried, held)
        invariant Sofar(trace, tried, IdsOf(candidates), stream, env, lastStatus, lastCategory)
        invariant Accounted(b, active, trace, env, held)
      {
        var next;
        next, trace := Turn(candidates, tried, strategy, stream, env, held, b, active, trace, lastStatus, lastCategory);
        if next == None {
          break;
        }
        var ev := next.value;
        tried := tried + {ev.id};
        if Final(ev) {
          return FinalResult(ev, env[attempt]), trace;
        }
        if ev.Failed? {
          lastStatus, lastCategory := ev.status, ev.category;
        }
      }
      EndsWithout(trace, tried, IdsOf(candidates), stream, env, lastStatus, lastCategory, |candidates|);
      return GaveUp(lastStatus, lastCategory), trace;
    }

    /**
     * At most three distinct candidates are tried, the loop stops at the first answer, and when it
     * ends without one every candidate has been tried or three attempts were made. Keys, queue,
     * tables and in-flight counts are exactly what the events account for, whatever candidates are
     * deleted before or between.
     */
    method Try(candidates: seq<ApiKey>, strategy: Strategy, stream: bool, env: seq<Circumstance>,
               ghost held: string -> Key)
      returns (result: Result, trace: seq<Ev>)
      requires Records(candidates) && Untouched(candidates, {}, held)
      requires forall id :: ActiveCount(balancer.active, id) >= 0
      requires |env| >= MAX_RETRY_KEYS
      modifies candidates, balancer, quota`alerts, quota.keys`cache, quota.keys.db
      ensures |trace| <= |env| && Proper(trace, stream, env)
      ensures Complete(trace, IdsOf(candidates))
      ensures quota.keys.Valid()
      ensures Now() == Account(quota.config, old(Now()), held, trace, env)
      ensures forall id :: ActiveCount(balancer.active, id) == old(ActiveCount(balancer.active, id))
      ensures result == ResultOf(trace, env)
    {
      result, trace := Loop(candidates, strategy, stream, env, held, Now(), balancer.active);
    }
  }
}
