/** Key selection of gateway.py: which keys a request may use. */
module KeySelection {
  import opened Prelude
  import opened Sorting
  import opened ApiKeys
  import opened KeyLifecycle
  import KeyTheorems

  datatype Rule = Rule(enabled: bool, keyIds: seq<string>)

  /** What selection reads from a request: the forced key, the model's source keys, model, provider, path. */
  datatype Request = Request(
    forced: string, entry: Option<seq<string>>, model: string, provider: string, path: string)

  /** The order of `list_all`. */
  predicate Earlier(a: Key, b: Key) {
    StrLess(a.provider, b.provider) || (a.provider == b.provider && a.priority < b.priority)
  }

  /** `list_all`: a stable sort by provider and priority. */
  function ListAll(ks: Keys): Keys { Sort(ks, Earlier) }

  /** The ACTIVE keys among `ks` whose id or name is chosen. */
  function ActiveAmong(ks: Keys, ids: seq<string>, name: string): Keys {
    if ks == [] then []
    else (if ks[0].status == Active && (ks[0].id in ids || ks[0].name == name) then [ks[0]] else [])
         + ActiveAmong(ks[1..], ids, name)
  }

  function ActiveById(ks: Keys, ids: seq<string>): Keys {
    if ks == [] then []
    else (if ks[0].status == Active && ks[0].id in ids then [ks[0]] else []) + ActiveById(ks[1..], ids)
  }

  /** `part in text`. */
  predicate Contains(text: string, part: string) {
    part <= text || (text != [] && Contains(text[1..], part))
  }

  /** Neither Anthropic's nor Google's kind of path. */
  predicate OpenaiStyle(path: string) {
    !("/v1/messages" <= path) && !("/v1beta" <= path) && !Contains(path, ":generateContent")
  }

  /** The provider asked for, then the OpenAI-compatible fallbacks. */
  function Candidates(r: Request): seq<string> {
    [r.provider]
    + (if !OpenaiStyle(r.path) then []
       else (if r.provider != "custom" then ["custom"] else [])
            + (if r.provider != "openai" then ["openai"] else [])
            + (if r.provider != "azure" then ["azure"] else []))
  }

  /** `list_active` for each provider in turn, recovering keys as it goes. */
  function ListEach(ks: Keys, providers: seq<string>, now: int): (Keys, Keys)
    decreases |providers|
  {
    if providers == [] then (ks, [])
    else
      var (ks1, out1) := ListActive(ks, providers[0], true, now);
      var (ks2, out2) := ListEach(ks1, providers[1..], now);
      (ks2, out1 + out2)
  }

  /** `_route_keys_for`. */
  function RouteKeys(ks: Keys, routes: map<string, Rule>, model: string): Option<Keys> {
    if model == "" || model !in routes || !routes[model].enabled then None
    else
      var active := ActiveById(ListAll(ks), routes[model].keyIds);
      if active == [] then None else Some(active)
  }

  /** `_pick_keys`: forced key, then the model's own sources, then a routing rule, then by provider. */
  function PickKeys(ks: Keys, routes: map<string, Rule>, r: Request, now: int): (Keys, Keys) {
    if r.forced != "" then (ks, ActiveAmong(ListAll(ks), [r.forced], r.forced))
    else
      var src := if r.entry.Some? then ActiveById(ListAll(ks), r.entry.value) else [];
      if src != [] then (ks, src)
      else
        match RouteKeys(ks, routes, r.model)
        case Some(routed) => (ks, routed)
        case None => ListEach(ks, Candidates(r), now)
  }

  lemma {:induction false} ActiveAmongMembers(ks: Keys, ids: seq<string>, name: string)
    ensures forall k :: k in ActiveAmong(ks, ids, name) <==>
                        k in ks && k.status == Active && (k.id in ids || k.name == name)
  {
    if ks != [] {
      ActiveAmongMembers(ks[1..], ids, name);
      assert ks == [ks[0]] + ks[1..];
    }
  }

  lemma {:induction false} ActiveByIdMembers(ks: Keys, ids: seq<string>)
    ensures forall k :: k in ActiveById(ks, ids) <==> k in ks && k.status == Active && k.id in ids
  {
    if ks != [] {
      ActiveByIdMembers(ks[1..], ids);
      assert ks == [ks[0]] + ks[1..];
    }
  }

  /** What the failover loop assumes of a candidate. */
  predicate Usable(k: Key, now: int) {
    k.status == Active && !InCooldown(k, now) && k.failureCount < MAX_FAILURES
  }

  ghost predicate AnyWants(k: Key, providers: seq<string>) { exists p :: p in providers && Wanted(k, p) }

  lemma RecoveredTwice(ks: Keys, now: int)
    ensures Recovered(Recovered(ks, now), now) == Recovered(ks, now)
  {
  }

  /** On sound keys one listing returns the ACTIVE keys of the provider, all of them. */
  lemma OneListing(ks: Keys, provider: string, now: int)
    requires KeyTheorems.AllSound(ks)
    ensures KeyTheorems.AllSound(Recovered(ks, now))
    ensures forall k :: k in ListActive(ks, provider, true, now).1 <==>
                        k in Recovered(ks, now) && k.status == Active && Wanted(k, provider)
  {
    var ks1 := Recovered(ks, now);
    KeyTheorems.RecoveredSound(ks, now);
    FilterMembers(ks1, provider, true, now);
    forall k | k in ks1
      ensures KeyTheorems.Sound(k)
    {
      var i :| 0 <= i < |ks1| && ks1[i] == k;
    }
  }

  /**
   * Listing one provider after another recovers what one listing would, and returns exactly the
   * ACTIVE keys, after recovery, of the providers asked for.
   */
  lemma {:induction false} ListEachExact(ks: Keys, providers: seq<string>, now: int)
    requires KeyTheorems.AllSound(ks) && providers != []
    ensures ListEach(ks, providers, now).0 == Recovered(ks, now)
    ensures forall k :: k in ListEach(ks, providers, now).1 <==>
                        k in Recovered(ks, now) && k.status == Active && AnyWants(k, providers)
    decreases |providers|
  {
    var p, ks1 := providers[0], Recovered(ks, now);
    OneListing(ks, p, now);
    RecoveredTwice(ks, now);
    assert providers == [p] + providers[1..];
    assert forall k :: AnyWants(k, providers) <==> Wanted(k, p) || AnyWants(k, providers[1..]) by {
      forall k
        ensures AnyWants(k, providers) <==> Wanted(k, p) || AnyWants(k, providers[1..])
      {
        if q :| q in providers && Wanted(k, q) {
          assert q == p || q in providers[1..];
        }
      }
    }
    if |providers| > 1 {
      ListEachExact(ks1, providers[1..], now);
    }
  }

  /** The same, for what the failover loop relies on. */
  lemma ListEachUsable(ks: Keys, providers: seq<string>, now: int)
    requires KeyTheorems.AllSound(ks)
    ensures var (ks', out) := ListEach(ks, providers, now);
            && KeyTheorems.AllSound(ks')
            && (forall k :: k in ks && k.status == Active ==> k in ks')
            && (forall k :: k in out ==> Usable(k, now) && k in ks' && AnyWants(k, providers))
  {
    if providers != [] {
      ListEachExact(ks, providers, now);
      OneListing(ks, providers[0], now);
      var ks1 := Recovered(ks, now);
      forall k | k in ks && k.status == Active
        ensures k in ks1
      {
        var i :| 0 <= i < |ks| && ks[i] == k;
        assert ks1[i] == k;
      }
      forall k | k in ks1
        ensures KeyTheorems.Sound(k)
      {
        var i :| 0 <= i < |ks1| && ks1[i] == k;
      }
    }
  }

  /**
   * No selection branch returns a cooling key: over every run of the key manager and for every
   * request, each key `_pick_keys` returns is ACTIVE, not in cooldown and below the failure
   * threshold, although the forced, source and routed branches look at the status alone.
   */
  lemma {:induction false} PickedKeysAreUsable(w: KeyTheorems.World, ops: seq<KeyTheorems.Op>, routes: map<string, Rule>,
                                               r: Request, now: int)
    requires KeyTheorems.WorldSound(w)
    ensures var (after, picked) := PickKeys(KeyTheorems.Run(w, ops).keys, routes, r, now);
            forall k :: k in picked ==> Usable(k, now) && k in after
  {
    KeyTheorems.ActiveIsSound(w, ops);
    var ks' := KeyTheorems.Run(w, ops).keys;
    SortMembers(ks', Earlier);
    ActiveAmongMembers(ListAll(ks'), [r.forced], r.forced);
    if r.entry.Some? {
      ActiveByIdMembers(ListAll(ks'), r.entry.value);
    }
    if r.model in routes {
      ActiveByIdMembers(ListAll(ks'), routes[r.model].keyIds);
    }
    ListEachUsable(ks', Candidates(r), now);
    forall k | k in ks' && k.status == Active
      ensures Usable(k, now)
    {
      var i :| 0 <= i < |ks'| && ks'[i] == k;
      assert KeyTheorems.Sound(ks'[i]);
    }
  }

  /**
   * Nor does any branch return a key that was switched off: set to INACTIVE or EXHAUSTED, and until
   * an event that would bring it back, it is offered to no request, forced, sourced, routed or not.
   */
  lemma SwitchedOffIsNotPicked(w: KeyTheorems.World, k: Key, status: Status, ops: seq<KeyTheorems.Op>,
                               routes: map<string, Rule>, r: Request, now: int)
    requires KeyTheorems.WorldSound(w) && k in w.keys && (status == Inactive || status == Exhausted)
    requires KeyTheorems.Undisturbed(KeyTheorems.Step(w, KeyTheorems.KeyOp(k.id, SetStatus(status))), ops, k.id)
    ensures var off := KeyTheorems.Step(w, KeyTheorems.KeyOp(k.id, SetStatus(status)));
            forall x :: x in PickKeys(KeyTheorems.Run(off, ops).keys, routes, r, now).1 ==> x.id != k.id
  {
    var off := KeyTheorems.Step(w, KeyTheorems.KeyOp(k.id, SetStatus(status)));
    var after := KeyTheorems.Run(off, ops);
    KeyTheorems.SwitchedOffStaysOff(w, k, status, ops, "", true, now);
    KeyTheorems.StepKeepsSound(w, KeyTheorems.KeyOp(k.id, SetStatus(status)));
    KeyTheorems.ActiveIsSound(off, ops);
    PickedExactly(after.keys, routes, r, now);
    forall x | x in PickKeys(after.keys, routes, r, now).1
      ensures x.id != k.id
    {
      OfferedIsActive(after.keys, routes, r, now, x);
    }
  }

  /** Whatever is eligible was ACTIVE, or in ERROR and due for recovery. */
  lemma OfferedIsActive(ks: Keys, routes: map<string, Rule>, r: Request, now: int, x: Key)
    requires Eligible(ks, routes, r, now, x)
    ensures exists k :: k in ks && k.id == x.id && (k.status == Active || k.status == Error)
  {
    if x !in ks {
      var i :| 0 <= i < |ks| && Recovered(ks, now)[i] == x;
      assert ks[i] in ks && ks[i].id == x.id;
    } else {
      assert x.status == Active;
    }
  }

  /** Some ACTIVE key is among those named. */
  ghost predicate Served(ks: Keys, ids: seq<string>) {
    exists k :: k in ks && k.status == Active && k.id in ids
  }

  /** Which keys a request may use, said without lists or order. */
  ghost predicate Eligible(ks: Keys, routes: map<string, Rule>, r: Request, now: int, k: Key) {
    if r.forced != "" then k in ks && k.status == Active && (k.id == r.forced || k.name == r.forced)
    else if r.entry.Some? && Served(ks, r.entry.value) then k in ks && k.status == Active && k.id in r.entry.value
    else if r.model != "" && r.model in routes && routes[r.model].enabled && Served(ks, routes[r.model].keyIds) then
      k in ks && k.status == Active && k.id in routes[r.model].keyIds
    else k in Recovered(ks, now) && k.status == Active && AnyWants(k, Candidates(r))
  }

  lemma ServedExactly(ks: Keys, ids: seq<string>)
    ensures ActiveById(ListAll(ks), ids) != [] <==> Served(ks, ids)
    ensures forall k :: k in ActiveById(ListAll(ks), ids) <==> k in ks && k.status == Active && k.id in ids
  {
    SortMembers(ks, Earlier);
    ActiveByIdMembers(ListAll(ks), ids);
    var active := ActiveById(ListAll(ks), ids);
    assert active != [] ==> active[0] in active;
  }

  /** Selection, exactly: every eligible key is offered and no other. */
  lemma PickedExactly(ks: Keys, routes: map<string, Rule>, r: Request, now: int)
    requires KeyTheorems.AllSound(ks)
    ensures forall k :: k in PickKeys(ks, routes, r, now).1 <==> Eligible(ks, routes, r, now, k)
  {
    if r.forced != "" {
      SortMembers(ks, Earlier);
      ActiveAmongMembers(ListAll(ks), [r.forced], r.forced);
    } else {
      if r.entry.Some? {
        ServedExactly(ks, r.entry.value);
      }
      if r.model in routes {
        ServedExactly(ks, routes[r.model].keyIds);
      }
      ListEachExact(ks, Candidates(r), now);
    }
  }

  ghost predicate FoundAt(text: string, part: string, i: int) { 0 <= i <= |text| && part <= text[i..] }

  lemma {:induction false} ContainsExactly(text: string, part: string)
    ensures Contains(text, part) <==> exists i :: FoundAt(text, part, i)
  {
    assert text[0..] == text;
    assert part <= text ==> FoundAt(text, part, 0);
    if text != [] {
      ContainsExactly(text[1..], part);
      assert forall i :: 0 <= i <= |text| - 1 ==> text[1..][i..] == text[i + 1..];
      if i :| FoundAt(text, part, i) {
        assert i > 0 ==> FoundAt(text[1..], part, i - 1);
      }
      if i :| FoundAt(text[1..], part, i) {
        assert FoundAt(text, part, i + 1);
      }
    }
  }

  /** Which paths are not of the OpenAI kind, exactly. */
  lemma StyleExactly(path: string)
    ensures !OpenaiStyle(path) <==>
            || (|path| >= 12 && path[..12] == "/v1/messages")
            || (|path| >= 7 && path[..7] == "/v1beta")
            || exists i :: FoundAt(path, ":generateContent", i)
  {
    ContainsExactly(path, ":generateContent");
  }

  /**
   * Which providers are asked, exactly: the request's own first, and for a path of the OpenAI kind
   * then "custom", "openai" and "azure", in this order, each once.
   */
  lemma CandidatesExactly(r: Request)
    ensures var ps := Candidates(r);
            && ps != [] && ps[0] == r.provider
            && (forall i, j :: 0 <= i < j < |ps| ==> ps[i] != ps[j])
            && (forall p :: p in ps <==> p == r.provider || (OpenaiStyle(r.path) && p in ["custom", "openai", "azure"]))
            && (forall i, j :: 1 <= i < j < |ps| ==> ps[i] == "custom" || (ps[i] == "openai" && ps[j] == "azure"))
  {
    var ps := Candidates(r);
    var a, b, c := "custom", "openai", "azure";
    assert a != b && b != c && a != c;
    if OpenaiStyle(r.path) {
      var first := if r.provider != a then [a] else [];
      var second := if r.provider != b then [b] else [];
      var third := if r.provider != c then [c] else [];
      assert ps == [r.provider] + (first + second + third);
    }
  }

  /** No key comes before one that is listed ahead of it. */
  ghost predicate Ordered(ks: Keys) {
    forall i, j :: 0 <= i < j < |ks| ==> !Earlier(ks[j], ks[i])
  }

  lemma {:induction false} InsertInOrder(x: Key, ks: Keys)
    requires Ordered(ks)
    ensures Ordered(Insert(x, ks, Earlier))
  {
    if ks != [] && !Earlier(x, ks[0]) {
      InsertInOrder(x, ks[1..]);
      InsertMembers(x, ks[1..], Earlier);
      var r := Insert(x, ks[1..], Earlier);
      forall j | 0 <= j < |r|
        ensures !Earlier(r[j], ks[0])
      {
        assert r[j] in r;
        if r[j] != x {
          var m :| 0 <= m < |ks[1..]| && ks[1..][m] == r[j];
          assert ks[m + 1] == r[j];
        }
      }
    } else if ks != [] {
      forall j | 0 <= j < |ks|
        ensures !Earlier(ks[j], x)
      {
        StrLessTrichotomy(ks[0].provider, ks[0].provider);
        EarlierApart(x, ks[0], ks[j]);
      }
    }
  }

  /** What comes before `b` comes before everything that does not come before `b`. */
  lemma EarlierApart(a: Key, b: Key, c: Key)
    requires Earlier(a, b) && !Earlier(c, b)
    ensures !Earlier(c, a)
  {
    StrLessTrichotomy(a.provider, b.provider);
    StrLessTrichotomy(c.provider, b.provider);
    StrLessTrichotomy(c.provider, a.provider);
    if StrLess(c.provider, a.provider) && StrLess(a.provider, b.provider) {
      StrLessTransitive(c.provider, a.provider, b.provider);
    }
  }

  /** The keys are listed by provider, and within a provider the most urgent first. */
  lemma {:induction false} ListedInOrder(ks: Keys)
    ensures var all := ListAll(ks);
            forall i, j :: 0 <= i < j < |all| ==>
              !StrLess(all[j].provider, all[i].provider)
              && (all[i].provider == all[j].provider ==> all[i].priority <= all[j].priority)
  {
    SortedInOrder(ks);
    var all := ListAll(ks);
    forall i, j | 0 <= i < j < |all|
      ensures !StrLess(all[j].provider, all[i].provider)
              && (all[i].provider == all[j].provider ==> all[i].priority <= all[j].priority)
    {
      assert !Earlier(all[j], all[i]);
    }
  }

  lemma {:induction false} SortedInOrder(ks: Keys)
    ensures Ordered(ListAll(ks))
  {
    if ks != [] {
      SortedInOrder(ks[..|ks| - 1]);
      InsertInOrder(ks[|ks| - 1], ListAll(ks[..|ks| - 1]));
      assert ListAll(ks) == Insert(ks[|ks| - 1], ListAll(ks[..|ks| - 1]), Earlier);
    }
  }

  /** A forced, sourced or routed request is offered its keys in that order. */
  lemma {:induction false} NamedInOrder(ks: Keys, ids: seq<string>, name: string)
    ensures InOrderOf(ActiveAmong(ks, ids, name), ks) && InOrderOf(ActiveById(ks, ids), ks)
  {
    if ks != [] {
      NamedInOrder(ks[1..], ids, name);
      var named, byId := ActiveAmong(ks[1..], ids, name), ActiveById(ks[1..], ids);
      Prepended(named, ks);
      Prepended(byId, ks);
      assert [] + named == named && [] + byId == byId;
    }
  }

  /** `out` is a subsequence of `ks`. */
  ghost predicate InOrderOf(out: Keys, ks: Keys)
    decreases |ks|
  {
    out == [] || (ks != [] && (InOrderOf(out, ks[1..]) || (out[0] == ks[0] && InOrderOf(out[1..], ks[1..]))))
  }

  lemma Prepended(out: Keys, ks: Keys)
    requires ks != [] && InOrderOf(out, ks[1..])
    ensures InOrderOf(out, ks) && InOrderOf([ks[0]] + out, ks)
  {
    assert ([ks[0]] + out)[1..] == out;
    assert out == [] ==> InOrderOf(out, ks);
  }

  /** With a provider named, no key is offered twice. */
  lemma {:induction false} ListEachDistinct(ks: Keys, providers: seq<string>, now: int)
    requires KeyTheorems.AllSound(ks) && (forall i :: 0 <= i < |providers| ==> providers[i] != "")
    requires forall i, j :: 0 <= i < j < |providers| ==> providers[i] != providers[j]
    ensures DistinctIds(ListEach(ks, providers, now).1)
    decreases |providers|
  {
    if providers != [] {
      var p := providers[0];
      var ks1 := Recovered(ks, now);
      KeyTheorems.RecoveredSound(ks, now);
      FilterMembers(ks1, p, true, now);
      var rest := providers[1..];
      ListEachDistinct(ks1, rest, now);
      ListEachUsable(ks1, rest, now);
      var out1, out2 := Filter(ks1, p, true, now), ListEach(ks1, rest, now).1;
      forall a, b | a in out1 && b in out2
        ensures a.id != b.id
      {
        var q :| q in rest && Wanted(b, q);
        var j :| 0 <= j < |rest| && rest[j] == q;
        assert providers[j + 1] == q;
        assert a.provider == p && b.provider == q;
        StillThere(ks1, rest, now, a);
        DistinctById(ListEach(ks1, rest, now).0, a, b);
      }
      assert forall i :: 0 <= i < |out1| ==> out1[i] in out1;
      assert forall i :: 0 <= i < |out2| ==> out2[i] in out2;
    }
  }

  lemma StillThere(ks: Keys, providers: seq<string>, now: int, k: Key)
    requires KeyTheorems.AllSound(ks) && k in ks && k.status == Active
    ensures k in ListEach(ks, providers, now).0 && DistinctIds(ListEach(ks, providers, now).0)
  {
    ListEachUsable(ks, providers, now);
  }

  lemma DistinctById(ks: Keys, a: Key, b: Key)
    requires DistinctIds(ks) && a in ks && b in ks && a != b
    ensures a.id != b.id
  {
  }
}
