/** Removals that overlap with syncs, services/sync.py: each sync collects apart and then replaces the list. */
module SyncRaces {
  import opened Prelude
  import opened SyncMerge
  import opened PublicIds

  /** A running sync: the keys it chose when it began, those it still waits for, the offers merged so far. */
  datatype Running = Running(chosen: set<string>, waiting: set<string>, offers: seq<Offer>)

  /** The published models, and the syncs that run. */
  datatype State = State(models: seq<Entry>, running: map<int, Running>)

  /** What the event loop does without interruption. */
  datatype Step =
    | Begin(sync: int, chosen: set<string>)
    | Pull(sync: int, from: string, offers: seq<Offer>)
    | Finish(sync: int)
    | Remove(id: string)

  /** Each chosen key is pulled once, and a sync ends when all of its pulls have. */
  predicate Enabled(s: State, step: Step) {
    match step
    case Begin(n, _) => n !in s.running
    case Pull(n, from, offers) =>
      n in s.running && from in s.running[n].waiting && forall i :: 0 <= i < |offers| ==> offers[i].keyId == from
    case Finish(n) => n in s.running && s.running[n].waiting == {}
    case Remove(_) => true
  }

  function Next(ctx: Context, s: State, step: Step): State
    requires Enabled(s, step)
  {
    match step
    case Begin(n, chosen) => s.(running := s.running[n := Running(chosen, chosen, [])])
    case Pull(n, from, offers) =>
      var r := s.running[n];
      s.(running := s.running[n := Running(r.chosen, r.waiting - {from}, r.offers + offers)])
    case Finish(n) => State(Assign(Merge(ctx, s.running[n].offers)), s.running - {n})
    case Remove(id) => s.(models := StripAll(s.models, id))
  }

  /** Only chosen keys are waited for or have been pulled from. */
  ghost predicate Sound(s: State) {
    forall n :: n in s.running ==> FromChosen(s.running[n])
  }

  ghost predicate FromChosen(r: Running) {
    r.waiting <= r.chosen && forall i :: 0 <= i < |r.offers| ==> r.offers[i].keyId in r.chosen
  }

  predicate Legal(ctx: Context, s: State, steps: seq<Step>)
    decreases |steps|, 0
  {
    steps == [] || (Legal(ctx, s, Init(steps)) && Enabled(After(ctx, s, Init(steps)), Last(steps)))
  }

  function After(ctx: Context, s: State, steps: seq<Step>): State
    requires Legal(ctx, s, steps)
    decreases |steps|, 1
  {
    if steps == [] then s else Next(ctx, After(ctx, s, Init(steps)), Last(steps))
  }

  /** Some model refers to the key. */
  ghost predicate Mentions(ms: seq<Entry>, id: string) {
    exists i :: 0 <= i < |ms| && id in ms[i].sourceKeys
  }

  ghost predicate OffersKey(offers: seq<Offer>, id: string) {
    exists i :: 0 <= i < |offers| && offers[i].keyId == id
  }

  /** Call `f` is the last `Finish` of the run, of a sync that has merged an offer of the key. */
  ghost predicate Restores(ctx: Context, s: State, steps: seq<Step>, f: int, id: string) {
    && 0 <= f < |steps| && steps[f].Finish?
    && (forall j :: f < j < |steps| ==> !steps[j].Finish?)
    && Legal(ctx, s, steps[..f]) && steps[f].sync in After(ctx, s, steps[..f]).running
    && OffersKey(After(ctx, s, steps[..f]).running[steps[f].sync].offers, id)
  }

  ghost predicate Restored(ctx: Context, s: State, steps: seq<Step>, id: string) {
    exists f :: Restores(ctx, s, steps, f, id)
  }

  lemma ShownMentions(ms: seq<Entry>, id: string)
    ensures Mentions(Assign(ms), id) <==> Mentions(ms, id)
  {
    var shown := Assign(ms);
    assert forall i :: 0 <= i < |ms| ==> shown[i].sourceKeys == ms[i].sourceKeys;
  }

  lemma {:induction false} MergedMentions(ctx: Context, offers: seq<Offer>, ms: seq<Entry>, id: string)
    requires Exact(ctx, offers, ms)
    ensures Mentions(ms, id) <==> OffersKey(offers, id)
  {
    if Mentions(ms, id) {
      var i :| 0 <= i < |ms| && id in ms[i].sourceKeys;
      assert Offered(offers, ms[i].key, id);
    }
    if OffersKey(offers, id) {
      var j :| 0 <= j < |offers| && offers[j].keyId == id;
      var i :| 0 <= i < |ms| && ms[i].key == KeyOf(offers[j]) && offers[j].keyId in ms[i].sourceKeys;
    }
  }

  lemma {:induction false} PublishedMentions(ctx: Context, offers: seq<Offer>, id: string)
    ensures Mentions(Assign(Merge(ctx, offers)), id) <==> OffersKey(offers, id)
  {
    MergeExact(ctx, offers);
    MergedMentions(ctx, offers, Merge(ctx, offers), id);
    ShownMentions(Merge(ctx, offers), id);
  }

  lemma {:induction false} StripMentions(ms: seq<Entry>, gone: string, id: string)
    ensures Mentions(StripAll(ms, gone), id) <==> id != gone && Mentions(ms, id)
  {
    if ms != [] {
      StripMentions(Init(ms), gone, id);
      OthersMembers(Last(ms).sourceKeys, gone);
      MentionsLast(ms, id);
      var rest := StripAll(Init(ms), gone);
      match Strip(Last(ms), gone)
      case Some(e) =>
        MentionsLast(rest + [e], id);
        assert Init(rest + [e]) == rest;
      case None =>
        assert Others(Last(ms).sourceKeys, gone) == [];
        assert rest + [] == rest;
    }
  }

  lemma MentionsLast(ms: seq<Entry>, id: string)
    requires ms != []
    ensures Mentions(ms, id) <==> Mentions(Init(ms), id) || id in Last(ms).sourceKeys
  {
    assert ms[|ms| - 1] == Last(ms);
    if Mentions(Init(ms), id) {
      var i :| 0 <= i < |Init(ms)| && id in Init(ms)[i].sourceKeys;
      assert ms[i] == Init(ms)[i];
    }
    if Mentions(ms, id) {
      var i :| 0 <= i < |ms| && id in ms[i].sourceKeys;
      assert i < |ms| - 1 ==> Init(ms)[i] == ms[i];
    }
  }

  /** A later step that is not a `Finish` neither restores nor forgets. */
  lemma RestoredEarlier(ctx: Context, s: State, steps: seq<Step>, id: string)
    requires steps != [] && !Last(steps).Finish?
    ensures Restored(ctx, s, steps, id) <==> Restored(ctx, s, Init(steps), id)
  {
    assert forall j :: 0 <= j < |steps| - 1 ==> steps[j] == Init(steps)[j] && steps[..j] == Init(steps)[..j];
    assert steps[|steps| - 1] == Last(steps);
    if f :| Restores(ctx, s, Init(steps), f, id) {
      assert Restores(ctx, s, steps, f, id);
    }
    if f :| Restores(ctx, s, steps, f, id) {
      assert Restores(ctx, s, Init(steps), f, id);
    }
  }

  lemma RestoredNow(ctx: Context, s: State, steps: seq<Step>, id: string)
    requires steps != [] && Last(steps).Finish? && Legal(ctx, s, steps)
    ensures Restored(ctx, s, steps, id) <==> OffersKey(After(ctx, s, Init(steps)).running[Last(steps).sync].offers, id)
  {
    var last := |steps| - 1;
    assert steps[..last] == Init(steps) && steps[last] == Last(steps);
    if OffersKey(After(ctx, s, Init(steps)).running[Last(steps).sync].offers, id) {
      assert Restores(ctx, s, steps, last, id);
    }
  }

  /**
   * When a removed key comes back, exactly: after a removal, and until the same key is removed
   * again, the models refer to the key if and only if some sync has finished since and the last one
   * to do so had pulled from the key, be it before or after the removal.
   */
  lemma {:induction false} RemovedKeyReturns(ctx: Context, s: State, id: string, steps: seq<Step>)
    requires Legal(ctx, Next(ctx, s, Remove(id)), steps)
    requires forall i :: 0 <= i < |steps| ==> steps[i] != Remove(id)
    ensures Mentions(After(ctx, Next(ctx, s, Remove(id)), steps).models, id)
            <==> Restored(ctx, Next(ctx, s, Remove(id)), steps, id)
  {
    var start := Next(ctx, s, Remove(id));
    if steps == [] {
      StripMentions(s.models, id, id);
    } else {
      var before, last := After(ctx, start, Init(steps)), Last(steps);
      assert last == steps[|steps| - 1];
      RemovedKeyReturns(ctx, s, id, Init(steps));
      if last.Finish? {
        RestoredNow(ctx, start, steps, id);
        PublishedMentions(ctx, before.running[last.sync].offers, id);
      } else {
        RestoredEarlier(ctx, start, steps, id);
        if last.Remove? {
          StripMentions(before.models, last.id, id);
        }
      }
    }
  }

  /** A sync that chose the key was running at the start. */
  ghost predicate ChoseBefore(s: State, n: int, id: string) {
    n in s.running && id in s.running[n].chosen
  }

  lemma {:induction false} SoundKept(ctx: Context, s: State, steps: seq<Step>)
    requires Sound(s) && Legal(ctx, s, steps)
    ensures Sound(After(ctx, s, steps))
  {
    if steps != [] {
      SoundKept(ctx, s, Init(steps));
    }
  }

  lemma {:induction false} ChoosersKept(ctx: Context, s: State, steps: seq<Step>, id: string, n: int)
    requires Legal(ctx, s, steps)
    requires forall i :: 0 <= i < |steps| && steps[i].Begin? ==> id !in steps[i].chosen
    requires ChoseBefore(After(ctx, s, steps), n, id)
    ensures ChoseBefore(s, n, id)
  {
    if steps != [] {
      assert Last(steps) == steps[|steps| - 1];
      ChoosersKept(ctx, s, Init(steps), id, n);
    }
  }

  /**
   * Who can bring a removed key back: as long as no later sync chooses it, only one that had chosen
   * it and was running at the removal. Without one the removal is final.
   */
  lemma {:induction false} RestorerWasRunning(ctx: Context, s: State, id: string, steps: seq<Step>)
    requires Sound(s) && Legal(ctx, Next(ctx, s, Remove(id)), steps)
    requires forall i :: 0 <= i < |steps| ==> steps[i] != Remove(id)
    requires forall i :: 0 <= i < |steps| && steps[i].Begin? ==> id !in steps[i].chosen
    ensures Mentions(After(ctx, Next(ctx, s, Remove(id)), steps).models, id) <==>
            exists f :: Restores(ctx, Next(ctx, s, Remove(id)), steps, f, id) && ChoseBefore(s, steps[f].sync, id)
    ensures (forall n :: n in s.running ==> id !in s.running[n].chosen) ==>
              !Mentions(After(ctx, Next(ctx, s, Remove(id)), steps).models, id)
  {
    var start := Next(ctx, s, Remove(id));
    RemovedKeyReturns(ctx, s, id, steps);
    if Mentions(After(ctx, start, steps).models, id) {
      var f :| Restores(ctx, start, steps, f, id);
      var upto := steps[..f];
      SoundKept(ctx, start, upto);
      ChoosersKept(ctx, start, upto, id, steps[f].sync);
      assert ChoseBefore(s, steps[f].sync, id);
    }
  }

  /** A key removed while a sync that chose it is running, before or after its pull, is back when that sync ends. */
  lemma RemovalUndone(ctx: Context, s: State, n: int, o: Offer)
    requires n !in s.running
    ensures var begun := Next(ctx, s, Begin(n, {o.keyId}));
            var s1 := Next(ctx, Next(ctx, begun, Pull(n, o.keyId, [o])), Remove(o.keyId));
            var s2 := Next(ctx, Next(ctx, begun, Remove(o.keyId)), Pull(n, o.keyId, [o]));
            && !Mentions(s1.models, o.keyId) && Mentions(Next(ctx, s1, Finish(n)).models, o.keyId)
            && !Mentions(s2.models, o.keyId) && Mentions(Next(ctx, s2, Finish(n)).models, o.keyId)
  {
    StripMentions(s.models, o.keyId, o.keyId);
    assert [] + [o] == [o] && [o][0].keyId == o.keyId;
    PublishedMentions(ctx, [o], o.keyId);
  }
}
