/** Price lookup, config/pricing.py: a first-match scan that must find the longest prefix. */
module PriceSpec {
  import opened Sorting

  /** Dollars per million tokens, in and out. */
  datatype Price = Price(input: real, output: real)

  datatype Row = Row(prefix: string, price: Price)

  const DEFAULT_PRICE := Price(1.00, 3.00)

  /** A dictionary's items: prefixes are pairwise different. */
  ghost predicate Keyed(rows: seq<Row>) {
    forall i, j :: 0 <= i < j < |rows| ==> rows[i].prefix != rows[j].prefix
  }

  function Longer(a: Row, b: Row): bool { |b.prefix| < |a.prefix| }

  /** `sorted(items, key=length, reverse=True)`. */
  function ByLength(rows: seq<Row>): seq<Row> { Sort(rows, Longer) }

  /** Where the scan stops: the first row that is a prefix of the model, or the end. */
  function FirstMatch(rows: seq<Row>, model: string): (i: nat)
    ensures i <= |rows|
    ensures i < |rows| ==> rows[i].prefix <= model
    ensures forall j :: 0 <= j < i ==> !(rows[j].prefix <= model)
  {
    if rows == [] || rows[0].prefix <= model then 0 else 1 + FirstMatch(rows[1..], model)
  }

  ghost predicate Matched(rows: seq<Row>, model: string) {
    exists r :: r in rows && r.prefix <= model
  }

  /** The specification: `r` matches and no matching row has a longer prefix. */
  ghost predicate Longest(rows: seq<Row>, model: string, r: Row) {
    && r in rows && r.prefix <= model
    && forall q :: q in rows && q.prefix <= model ==> |q.prefix| <= |r.prefix|
  }

  /** Overrides first, then the built-in table, then the default price. */
  ghost predicate Answers(overrides: seq<Row>, builtin: seq<Row>, model: string, p: Price) {
    if Matched(overrides, model) then exists r :: Longest(overrides, model, r) && r.price == p
    else if Matched(builtin, model) then exists r :: Longest(builtin, model, r) && r.price == p
    else p == DEFAULT_PRICE
  }

  /** The scan finds the longest prefix in this table, whatever the model. */
  ghost predicate ScanCorrect(rows: seq<Row>) {
    forall model: string, r: Row :: Longest(rows, model, r) ==> ScanReturns(rows, model, r)
  }

  ghost predicate ScanReturns(rows: seq<Row>, model: string, r: Row) {
    FirstMatch(rows, model) < |rows| && rows[FirstMatch(rows, model)] == r
  }

  /** No row stands before a row it is a prefix of. */
  ghost predicate Unshadowed(rows: seq<Row>) {
    forall i, j :: 0 <= i < j < |rows| ==> !(rows[i].prefix <= rows[j].prefix)
  }

  lemma LongestUnique(rows: seq<Row>, model: string, a: Row, b: Row)
    requires Keyed(rows) && Longest(rows, model, a) && Longest(rows, model, b)
    ensures a == b
  {
    assert a.prefix == model[..|a.prefix|] == b.prefix;
    var i :| 0 <= i < |rows| && rows[i] == a;
    var j :| 0 <= j < |rows| && rows[j] == b;
  }

  lemma ShadowedAlready(rows: seq<Row>, i: nat, j: nat)
    requires Keyed(rows) && ScanCorrect(rows) && i < j < |rows|
    ensures !(rows[i].prefix <= rows[j].prefix)
  {
    var model := rows[j].prefix;
    assert rows[j] in rows;
    assert Longest(rows, model, rows[j]);
    assert ScanReturns(rows, model, rows[j]);
    assert FirstMatch(rows, model) == j;
  }

  lemma UnshadowedScan(rows: seq<Row>, model: string, r: Row)
    requires Unshadowed(rows) && Longest(rows, model, r)
    ensures ScanReturns(rows, model, r)
  {
    var f := FirstMatch(rows, model);
    var j :| 0 <= j < |rows| && rows[j] == r;
    assert f <= j;
    var short := rows[f].prefix;
    assert rows[f] in rows;
    assert short == model[..|short|] == r.prefix[..|short|];
    assert short <= r.prefix;
  }

  /** What ordering the scan needs, exactly: no row before a row it is a prefix of. */
  lemma ScanNeeds(rows: seq<Row>)
    requires Keyed(rows)
    ensures ScanCorrect(rows) <==> Unshadowed(rows)
  {
    if ScanCorrect(rows) {
      forall i, j | 0 <= i < j < |rows|
        ensures !(rows[i].prefix <= rows[j].prefix)
      {
        ShadowedAlready(rows, i, j);
      }
    }
    if Unshadowed(rows) {
      forall model: string, r: Row | Longest(rows, model, r)
        ensures ScanReturns(rows, model, r)
      {
        UnshadowedScan(rows, model, r);
      }
    }
  }

  ghost predicate Descending(rows: seq<Row>) {
    forall i, j :: 0 <= i < j < |rows| ==> |rows[j].prefix| <= |rows[i].prefix|
  }

  lemma {:induction false} InsertDescending(x: Row, rows: seq<Row>)
    requires Descending(rows)
    ensures Descending(Insert(x, rows, Longer))
  {
    if rows != [] && !Longer(x, rows[0]) {
      InsertDescending(x, rows[1..]);
      InsertMembers(x, rows[1..], Longer);
      var r := Insert(x, rows[1..], Longer);
      assert Insert(x, rows, Longer) == [rows[0]] + r;
      forall j | 0 <= j < |r|
        ensures |r[j].prefix| <= |rows[0].prefix|
      {
        assert r[j] in r;
      }
    }
  }

  lemma {:induction false} InsertKeyed(x: Row, rows: seq<Row>)
    requires Keyed(rows) && forall q :: q in rows ==> q.prefix != x.prefix
    ensures Keyed(Insert(x, rows, Longer))
  {
    if rows != [] && !Longer(x, rows[0]) {
      InsertKeyed(x, rows[1..]);
      InsertMembers(x, rows[1..], Longer);
      var r := Insert(x, rows[1..], Longer);
      assert forall j :: 0 <= j < |r| ==> r[j] in r;
      assert forall q :: q in r ==> q.prefix != rows[0].prefix;
    }
  }

  lemma {:induction false} SortedTable(rows: seq<Row>)
    ensures Descending(ByLength(rows))
    ensures Keyed(rows) ==> Keyed(ByLength(rows))
  {
    if rows != [] {
      var init, last := rows[..|rows| - 1], rows[|rows| - 1];
      SortedTable(init);
      SortMembers(init, Longer);
      InsertDescending(last, ByLength(init));
      if Keyed(rows) {
        InsertKeyed(last, ByLength(init));
      }
    }
  }

  lemma DescendingUnshadowed(rows: seq<Row>)
    requires Keyed(rows) && Descending(rows)
    ensures Unshadowed(rows)
  {
    forall i, j | 0 <= i < j < |rows|
      ensures !(rows[i].prefix <= rows[j].prefix)
    {
      PrefixOfNoLonger(rows[i].prefix, rows[j].prefix);
    }
  }

  lemma PrefixOfNoLonger(a: string, b: string)
    requires |b| <= |a|
    ensures a <= b ==> a == b
  {
    if a <= b {
      assert a == b[..|a|];
    }
  }

  /** A matched model has a longest matching row. */
  lemma {:induction false} LongestExists(rows: seq<Row>, model: string) returns (r: Row)
    requires Matched(rows, model)
    ensures Longest(rows, model, r)
  {
    var init, last := rows[..|rows| - 1], rows[|rows| - 1];
    assert rows == init + [last];
    if Matched(init, model) {
      r := LongestExists(init, model);
      if last.prefix <= model && |r.prefix| < |last.prefix| {
        r := last;
      }
    } else {
      r := last;
    }
  }

  /** The scan of the length-ordered table: the longest matching row, or the end if none matches. */
  lemma ScanIsLongest(rows: seq<Row>, model: string)
    requires Keyed(rows)
    ensures var items, f := ByLength(rows), FirstMatch(ByLength(rows), model);
            if Matched(rows, model) then f < |items| && Longest(rows, model, items[f]) else f == |items|
  {
    var items := ByLength(rows);
    assert forall i :: 0 <= i < |items| ==> items[i] in items;
    SortMembers(rows, Longer);
    SortedTable(rows);
    DescendingUnshadowed(items);
    if Matched(rows, model) {
      var r := LongestExists(rows, model);
      assert Longest(items, model, r);
      UnshadowedScan(items, model, r);
    }
  }

  /** The answer is a function of the tables as sets: insertion order cannot show. */
  lemma {:induction false} AnswerUnique(o1: seq<Row>, b1: seq<Row>, o2: seq<Row>, b2: seq<Row>,
                                            model: string, p: Price, q: Price)
    requires Keyed(o1) && Keyed(b1)
    requires (forall r :: r in o1 <==> r in o2) && (forall r :: r in b1 <==> r in b2)
    requires Answers(o1, b1, model, p) && Answers(o2, b2, model, q)
    ensures p == q
  {
    if Matched(o1, model) {
      SamePrice(o1, o2, model, p, q);
    } else if Matched(b1, model) {
      SamePrice(b1, b2, model, p, q);
    }
  }

  lemma SamePrice(a: seq<Row>, b: seq<Row>, model: string, p: Price, q: Price)
    requires Keyed(a) && forall r :: r in a <==> r in b
    requires exists r :: Longest(a, model, r) && r.price == p
    requires exists r :: Longest(b, model, r) && r.price == q
    ensures p == q
  {
    var x :| Longest(a, model, x) && x.price == p;
    var y :| Longest(b, model, y) && y.price == q;
    assert Longest(a, model, y);
    LongestUnique(a, model, x, y);
  }

  /** A model named exactly by an override costs what that override says. */
  lemma {:induction false} ExactNameWins(overrides: seq<Row>, builtin: seq<Row>, r: Row, p: Price)
    requires Keyed(overrides) && r in overrides && Answers(overrides, builtin, r.prefix, p)
    ensures p == r.price
  {
    assert Matched(overrides, r.prefix) && Longest(overrides, r.prefix, r);
    var x :| Longest(overrides, r.prefix, x) && x.price == p;
    LongestUnique(overrides, r.prefix, x, r);
  }
}

module Pricing {
  import opened Prelude
  import opened PriceSpec

  /** Python's `str.strip` and `str.lower`; what is proved holds for any two text functions. */
  datatype Text = Text(strip: string -> string, lower: string -> string)

  /** One user rule; the price is missing when the stored value is not a pair. */
  datatype Rule = Rule(name: string, price: Option<Price>)

  /** Whether a rule survives normalisation, and under which prefix. */
  predicate Accepted(t: Text, r: Rule) { t.strip(r.name) != "" && r.price.Some? }

  function PrefixOf(t: Text, r: Rule): string { t.lower(t.strip(r.name)) }

  /** The override table: for each prefix, the price of the last accepted rule with it. */
  ghost function Table(t: Text, rules: seq<Rule>): map<string, Price> {
    if rules == [] then map[]
    else
      var before, r := Table(t, rules[..|rules| - 1]), rules[|rules| - 1];
      if Accepted(t, r) then before[PrefixOf(t, r) := r.price.value] else before
  }

  /** Rows hold exactly the table. */
  ghost predicate Holds(rows: seq<Row>, table: map<string, Price>) {
    && Keyed(rows)
    && (forall r :: r in rows ==> r.prefix in table && table[r.prefix] == r.price)
    && (forall k :: k in table ==> Row(k, table[k]) in rows)
  }

  /** Assignment to a dictionary: in place if the key is there, at the end if not. */
  method Store(rows: seq<Row>, row: Row, ghost table: map<string, Price>) returns (more: seq<Row>)
    requires Holds(rows, table)
    ensures Holds(more, table[row.prefix := row.price])
  {
    var i := 0;
    while i < |rows| && rows[i].prefix != row.prefix
      invariant 0 <= i <= |rows| && forall j :: 0 <= j < i ==> rows[j].prefix != row.prefix
    {
      i := i + 1;
    }
    if i < |rows| {
      more := rows[i := row];
    } else {
      more := rows + [row];
    }
    StoreHolds(rows, row, table, i);
  }

  lemma StoreHolds(rows: seq<Row>, row: Row, table: map<string, Price>, i: nat)
    requires Holds(rows, table) && i <= |rows|
    requires i < |rows| ==> rows[i].prefix == row.prefix
    requires forall j :: 0 <= j < i ==> rows[j].prefix != row.prefix
    ensures Holds(if i < |rows| then rows[i := row] else rows + [row], table[row.prefix := row.price])
  {
    var more := if i < |rows| then rows[i := row] else rows + [row];
    assert more[i] == row;
    forall k | k in table && k != row.prefix
      ensures Row(k, table[k]) in more
    {
      var j :| 0 <= j < |rows| && rows[j] == Row(k, table[k]);
      assert more[j] == rows[j];
    }
  }

  class PriceTables {
    const text: Text
    const builtin: seq<Row>
    const priceItems: seq<Row>
    var overrides: seq<Row>
    var overrideItems: seq<Row>

    ghost predicate Valid()
      reads this
    {
      && Keyed(builtin) && priceItems == ByLength(builtin)
      && Keyed(overrides) && overrideItems == ByLength(overrides)
    }

    constructor (text: Text, builtin: seq<Row>)
      requires Keyed(builtin)
      ensures Valid() && this.text == text && this.builtin == builtin && overrides == []
    {
      this.text, this.builtin := text, builtin;
      priceItems := ByLength(builtin);
      overrides, overrideItems := [], [];
    }

    /** `set_overrides`: replaces the table by the accepted rules, later ones winning. */
    method SetOverrides(rules: seq<Rule>)
      requires Valid()
      modifies this
      ensures Valid() && Holds(overrides, Table(text, rules))
    {
      var rows: seq<Row> := [];
      var i := 0;
      while i < |rules|
        invariant 0 <= i <= |rules| && Holds(rows, Table(text, rules[..i]))
      {
        assert rules[..i + 1][..i] == rules[..i];
        var r := rules[i];
        if Accepted(text, r) {
          rows := Store(rows, Row(PrefixOf(text, r), r.price.value), Table(text, rules[..i]));
        }
        i := i + 1;
      }
      assert rules[..i] == rules;
      overrides := rows;
      overrideItems := ByLength(rows);
    }

    /** `price_for`: the two scans, then the default. */
    method PriceFor(model: string) returns (p: Price)
      requires Valid()
      ensures Answers(overrides, builtin, text.lower(model), p)
    {
      var m := text.lower(model);
      ScanIsLongest(overrides, m);
      ScanIsLongest(builtin, m);
      var hit := Scan(overrideItems, m);
      if hit.Some? {
        return hit.value;
      }
      hit := Scan(priceItems, m);
      if hit.Some? {
        return hit.value;
      }
      return DEFAULT_PRICE;
    }
  }

  method Scan(items: seq<Row>, model: string) returns (hit: Option<Price>)
    ensures hit == if FirstMatch(items, model) < |items| then Some(items[FirstMatch(items, model)].price) else None
  {
    var i := 0;
    while i < |items|
      invariant 0 <= i <= |items| && forall j :: 0 <= j < i ==> !(items[j].prefix <= model)
    {
      if items[i].prefix <= model {
        assert FirstMatch(items, model) == i;
        return Some(items[i].price);
      }
      i := i + 1;
    }
    return None;
  }

  lemma {:induction false} TableMembers(t: Text, rules: seq<Rule>)
    ensures forall k :: k in Table(t, rules) ==>
              exists r :: r in rules && Accepted(t, r) && PrefixOf(t, r) == k && r.price == Some(Table(t, rules)[k])
    ensures forall r :: r in rules && Accepted(t, r) ==> PrefixOf(t, r) in Table(t, rules)
  {
    if rules != [] {
      TableMembers(t, rules[..|rules| - 1]);
      assert rules == rules[..|rules| - 1] + [rules[|rules| - 1]];
      assert rules[|rules| - 1] in rules;
    }
  }

  /** Rule `i` is the last of its normalised name that is well formed. */
  ghost predicate LastOfName(t: Text, rules: seq<Rule>, i: nat) {
    && i < |rules| && t.strip(rules[i].name) != "" && rules[i].price.Some?
    && forall j :: i < j < |rules| && t.lower(t.strip(rules[j].name)) == t.lower(t.strip(rules[i].name)) ==>
         rules[j].price.None? || t.strip(rules[j].name) == ""
  }

  lemma {:induction false} TableAt(t: Text, rules: seq<Rule>, i: nat)
    requires LastOfName(t, rules, i)
    ensures var name := t.lower(t.strip(rules[i].name));
            name in Table(t, rules) && Table(t, rules)[name] == rules[i].price.value
  {
    if i < |rules| - 1 {
      var init := rules[..|rules| - 1];
      assert forall j :: 0 <= j < |init| ==> init[j] == rules[j];
      assert LastOfName(t, init, i);
      TableAt(t, init, i);
    }
  }

  /**
   * From a rule to a price: a model that goes by a rule's name, stripped and in lower case, is charged
   * what the last well-formed rule of that name says, whatever else the tables hold.
   */
  lemma {:induction false} RuleIsCharged(t: Text, rules: seq<Rule>, i: nat, overrides: seq<Row>, builtin: seq<Row>,
                                         p: Price)
    requires LastOfName(t, rules, i) && Holds(overrides, Table(t, rules))
    requires Answers(overrides, builtin, t.lower(t.strip(rules[i].name)), p)
    ensures p == rules[i].price.value
  {
    TableAt(t, rules, i);
    var name := t.lower(t.strip(rules[i].name));
    ExactNameWins(overrides, builtin, Row(name, rules[i].price.value), p);
  }

  /** A model that no row is a prefix of costs one dollar in and three out, per million tokens. */
  lemma UnknownModelCosts(overrides: seq<Row>, builtin: seq<Row>, model: string, p: Price)
    requires Answers(overrides, builtin, model, p)
    requires forall r :: r in overrides + builtin ==> !(r.prefix <= model)
    ensures p == Price(1.00, 3.00)
  {
    assert forall r :: r in overrides || r in builtin ==> r in overrides + builtin;
  }

  /** The same rules in another order set the same prices, if no two normalise to one prefix. */
  lemma RuleOrderIrrelevant(t: Text, a: seq<Rule>, b: seq<Rule>)
    requires forall r :: r in a <==> r in b
    requires forall x, y :: x in a && y in a && Accepted(t, x) && Accepted(t, y) && PrefixOf(t, x) == PrefixOf(t, y)
                            ==> x == y
    ensures Table(t, a) == Table(t, b)
  {
    TableMembers(t, a);
    TableMembers(t, b);
    assert Table(t, a).Keys == Table(t, b).Keys;
  }
}
