/** Pairing dividend legs into events, and the totals reported over them. Amounts are integer cents. */
module Dividends {
  import opened Prelude
  import opened Text

  datatype Leg = Gross | Withholding
  datatype Kind = Dividend | RemuneratedPortfolio

  /** The columns of a movement row the pairing reads; `cents` is None for an unreadable amount. */
  datatype Row = Row(
    id: string,
    code: Option<string>,
    description: Option<string>,
    date: Option<string>,
    cents: Option<int>)

  datatype LegRule = LegRule(leg: Leg, kind: Kind, prefix: string)

  datatype Key = Key(date: string, kind: Kind, name: string)

  datatype Group = Group(
    payDate: Option<string>,
    security: Option<string>,
    grossCents: Option<int>,
    withholdingCents: Option<int>,
    sawGross: bool,
    sawWithholding: bool,
    grossUnreadable: bool,
    withholdingUnreadable: bool)

  const NEW_GROUP := Group(None, None, None, None, false, false, false, false)

  datatype Event = Event(
    payDate: Option<string>,
    security: Option<string>,
    kind: Kind,
    gross: Option<int>,
    withholding: Option<int>,
    net: Option<int>,
    unpaired: Option<Leg>)

  /* ---- reading a row ---- */

  function TrimLeft(s: string): string {
    if s != "" && IsWhitespace(s[0]) then TrimLeft(s[1..]) else s
  }

  function TrimRight(s: string): string {
    if s != "" && IsWhitespace(s[|s| - 1]) then TrimRight(s[..|s| - 1]) else s
  }

  function Trim(s: string): string {
    TrimRight(TrimLeft(s))
  }

  predicate EqIgnoreCase(a: string, b: string) {
    ToLower(a) == ToLower(b)
  }

  function RuleFor(code: string): Option<LegRule> {
    if EqIgnoreCase("DII", code) then Some(LegRule(Gross, Dividend, "Div.su "))
    else if EqIgnoreCase("DIR", code) then Some(LegRule(Withholding, Dividend, "Rit.div.su "))
    else if EqIgnoreCase("DER", code) then Some(LegRule(Withholding, Dividend, "Rit.div.su "))
    else if EqIgnoreCase("DPR", code) then Some(LegRule(Gross, RemuneratedPortfolio, "Acc.div.Port.Rem. "))
    else if EqIgnoreCase("RPR", code) then Some(LegRule(Withholding, RemuneratedPortfolio, "Add.rit.Port.Rem. "))
    else None
  }

  function RuleOf(r: Row): Option<LegRule> {
    RuleFor(Trim(r.code.GetOr("")))
  }

  /** The label after the prefix; never the whole description, and never a blank label. */
  function SecurityLabel(description: Option<string>, prefix: string): Option<string> {
    match description
    case None => None
    case Some(d) =>
      var trimmed := Trim(d);
      if |trimmed| < |prefix| || !EqIgnoreCase(trimmed[..|prefix|], prefix) then None
      else
        var name := Trim(trimmed[|prefix|..]);
        if name == "" then None else Some(name)
  }

  function LabelOf(r: Row): Option<string>
    requires RuleOf(r).Some?
  {
    SecurityLabel(r.description, RuleOf(r).value.prefix)
  }

  function KeyOf(r: Row): Key
    requires RuleOf(r).Some?
  {
    Key(r.date.GetOr(""), RuleOf(r).value.kind, LabelOf(r).GetOr(r.id))
  }

  /* ---- accumulating ---- */

  function AddTo(total: Option<int>, value: int): Option<int> {
    Some(total.GetOr(0) + value)
  }

  /** The first date and the first label seen are kept. */
  function Name(g: Group, date: Option<string>, security: Option<string>): Group {
    g.(payDate := if g.payDate.None? then date else g.payDate,
       security := if g.security.None? then security else g.security)
  }

  function Tally(g: Group, leg: Leg, cents: Option<int>): Group {
    match (leg, cents)
    case (Gross, Some(v)) => g.(sawGross := true, grossCents := AddTo(g.grossCents, v))
    case (Gross, None) => g.(sawGross := true, grossUnreadable := true)
    case (Withholding, Some(v)) => g.(sawWithholding := true, withholdingCents := AddTo(g.withholdingCents, -v))
    case (Withholding, None) => g.(sawWithholding := true, withholdingUnreadable := true)
  }

  function Absorb(g: Group, r: Row): Group
    requires RuleOf(r).Some?
  {
    Tally(Name(g, r.date, LabelOf(r)), RuleOf(r).value.leg, r.cents)
  }

  function GroupAt(groups: map<Key, Group>, k: Key): Group {
    if k in groups then groups[k] else NEW_GROUP
  }

  function Take(groups: map<Key, Group>, r: Row): map<Key, Group> {
    if RuleOf(r).None? then groups else groups[KeyOf(r) := Absorb(GroupAt(groups, KeyOf(r)), r)]
  }

  function Grouped(rows: seq<Row>): map<Key, Group> {
    if rows == [] then map[] else Take(Grouped(rows[..|rows| - 1]), rows[|rows| - 1])
  }

  /* ---- finishing ---- */

  function Finish(k: Key, g: Group): Event {
    var gross := if g.grossUnreadable then None else g.grossCents;
    var withholding := if g.withholdingUnreadable then None else g.withholdingCents;
    var net :=
      match gross
      case None => None
      case Some(x) =>
        if !g.sawWithholding then Some(x)
        else match withholding
             case Some(w) => Some(x - w)
             case None => None;
    var unpaired :=
      if g.sawGross && g.sawWithholding then None else if g.sawGross then Some(Withholding) else Some(Gross);
    Event(g.payDate, g.security, k.kind, gross, withholding, net, unpaired)
  }

  /** The order of the `BTreeMap` keys: date, then kind, then label or row id. */
  predicate KeyBefore(a: Key, b: Key) {
    Before(a.date, b.date)
    || (a.date == b.date &&
        ((a.kind.Dividend? && b.kind.RemuneratedPortfolio?) || (a.kind == b.kind && Before(a.name, b.name))))
  }

  lemma KeyOrderIsTotal(a: Key, b: Key)
    ensures a == b || KeyBefore(a, b) || KeyBefore(b, a)
    ensures !(KeyBefore(a, b) && KeyBefore(b, a)) && !KeyBefore(a, a)
  {
    hide Before;
    BeforeIsTotal(a.date, b.date);
    BeforeIsTotal(a.name, b.name);
    BeforeIsStrict(a.date);
    BeforeIsStrict(a.name);
    if Before(a.date, b.date) && Before(b.date, a.date) {
      BeforeIsTransitive(a.date, b.date, a.date);
    }
    if Before(a.name, b.name) && Before(b.name, a.name) {
      BeforeIsTransitive(a.name, b.name, a.name);
    }
  }

  lemma KeyOrderIsTransitive(a: Key, b: Key, c: Key)
    requires KeyBefore(a, b) && KeyBefore(b, c)
    ensures KeyBefore(a, c)
  {
    hide Before;
    if Before(a.date, b.date) && Before(b.date, c.date) {
      BeforeIsTransitive(a.date, b.date, c.date);
    }
    if Before(a.name, b.name) && Before(b.name, c.name) {
      BeforeIsTransitive(a.name, b.name, c.name);
    }
  }

  predicate Ascending(ks: seq<Key>) {
    forall i, j :: 0 <= i < j < |ks| ==> KeyBefore(ks[i], ks[j])
  }

  /** `ks` is the key set of `groups` in order. */
  predicate ListsKeys(ks: seq<Key>, groups: map<Key, Group>) {
    Ascending(ks) && (forall i :: 0 <= i < |ks| ==> ks[i] in groups) && (forall k :: k in groups.Keys ==> k in ks)
  }

  function EventsAt(ks: seq<Key>, groups: map<Key, Group>): seq<Event>
    requires forall i :: 0 <= i < |ks| ==> ks[i] in groups
  {
    seq(|ks|, i requires 0 <= i < |ks| => Finish(ks[i], groups[ks[i]]))
  }

  /** Two ascending lists with the same members are the same list: the order of events is forced. */
  lemma {:induction false} AscendingIsUnique(xs: seq<Key>, ys: seq<Key>)
    requires Ascending(xs) && Ascending(ys) && (forall k :: k in xs <==> k in ys)
    ensures xs == ys
    decreases |xs|
  {
    hide KeyBefore;
    if xs == [] {
      HasMember(ys);
    } else {
      assert xs[0] in xs && xs[0] in ys;
      assert ys[0] in ys && ys[0] in xs;
      KeyOrderIsTotal(xs[0], ys[0]);
      assert xs[0] == ys[0];
      TailMembers(xs);
      TailMembers(ys);
      AscendingIsUnique(xs[1..], ys[1..]);
      assert xs == [xs[0]] + xs[1..] && ys == [ys[0]] + ys[1..];
    }
  }

  lemma HasMember(ks: seq<Key>)
    ensures ks == [] || exists k :: k in ks
  {
    assert ks == [] || ks[0] in ks;
  }

  lemma TailMembers(xs: seq<Key>)
    requires Ascending(xs) && xs != []
    ensures Ascending(xs[1..]) && forall k :: k in xs[1..] <==> k in xs && k != xs[0]
  {
    hide KeyBefore;
    assert forall i :: 0 <= i < |xs| - 1 ==> xs[1..][i] == xs[i + 1];
    forall i | 1 <= i < |xs|
      ensures xs[i] != xs[0]
    {
      KeyOrderIsTotal(xs[0], xs[i]);
    }
    forall k | k in xs && k != xs[0]
      ensures k in xs[1..]
    {
      var i :| 0 <= i < |xs| && xs[i] == k;
      assert xs[1..][i - 1] == k;
    }
  }

  lemma {:induction false} SmallestKey(s: set<Key>) returns (k: Key)
    requires s != {}
    ensures k in s && forall j :: j in s && j != k ==> KeyBefore(k, j)
    decreases s
  {
    hide KeyBefore;
    var x :| x in s;
    if s == {x} {
      k := x;
    } else {
      var y := SmallestKey(s - {x});
      KeyOrderIsTotal(x, y);
      k := if KeyBefore(x, y) then x else y;
      forall j | j in s && j != k
        ensures KeyBefore(k, j)
      {
        if j != x && j != y && k == x {
          KeyOrderIsTransitive(x, y, j);
        }
      }
    }
  }

  /** The grouping loop, then the traversal of the map in key order. */
  method PairDividends(rows: seq<Row>) returns (events: seq<Event>)
    ensures exists keys :: ListsKeys(keys, Grouped(rows)) && events == EventsAt(keys, Grouped(rows))
  {
    hide KeyBefore, Absorb, Finish, KeyOf, RuleOf;
    var groups: map<Key, Group> := map[];
    for i := 0 to |rows|
      invariant groups == Grouped(rows[..i])
    {
      assert rows[..i + 1][..i] == rows[..i];
      var r := rows[i];
      if RuleOf(r).Some? {
        var k := KeyOf(r);
        var g := if k in groups then groups[k] else NEW_GROUP;
        groups := groups[k := Absorb(g, r)];
      }
    }
    assert rows[..|rows|] == rows;
    var left := groups.Keys;
    events := [];
    ghost var keys: seq<Key> := [];
    while left != {}
      invariant left <= groups.Keys
      invariant forall i :: 0 <= i < |keys| ==> keys[i] in groups && keys[i] !in left
      invariant forall k :: k in groups.Keys ==> k in left || k in keys
      invariant Ascending(keys)
      invariant forall i, k :: 0 <= i < |keys| && k in left ==> KeyBefore(keys[i], k)
      invariant events == EventsAt(keys, groups)
      decreases left
    {
      ghost var smallest := SmallestKey(left);
      assert smallest in left;
      var k :| k in left && forall j :: j in left && j != k ==> KeyBefore(k, j);
      keys := keys + [k];
      events := events + [Finish(k, groups[k])];
      left := left - {k};
    }
  }

  /* ---- the order of the rows does not matter ---- */

  lemma NameCommutes(g: Group, date: Option<string>, label1: Option<string>,
                     date2: Option<string>, label2: Option<string>)
    requires date.GetOr("") == date2.GetOr("") && (label1.Some? && label2.Some? ==> label1 == label2)
    ensures Name(Name(g, date, label1), date2, label2) == Name(Name(g, date2, label2), date, label1)
  {
  }

  lemma TallyCommutes(g: Group, leg1: Leg, cents1: Option<int>, leg2: Leg, cents2: Option<int>)
    ensures Tally(Tally(g, leg1, cents1), leg2, cents2) == Tally(Tally(g, leg2, cents2), leg1, cents1)
  {
  }

  lemma NameThenTally(g: Group, date: Option<string>, security: Option<string>, leg: Leg, cents: Option<int>)
    ensures Name(Tally(g, leg, cents), date, security) == Tally(Name(g, date, security), leg, cents)
  {
  }

  lemma AbsorbCommutes(g: Group, r: Row, q: Row)
    requires RuleOf(r).Some? && RuleOf(q).Some? && KeyOf(r) == KeyOf(q)
    ensures Absorb(Absorb(g, r), q) == Absorb(Absorb(g, q), r)
  {
    assert r.date.GetOr("") == q.date.GetOr("");
    assert LabelOf(r).Some? && LabelOf(q).Some? ==> LabelOf(r) == LabelOf(q);
    hide RuleOf, LabelOf, KeyOf, Name, Tally;
    var leg1, leg2 := RuleOf(r).value.leg, RuleOf(q).value.leg;
    NameThenTally(Name(g, r.date, LabelOf(r)), q.date, LabelOf(q), leg1, r.cents);
    NameThenTally(Name(g, q.date, LabelOf(q)), r.date, LabelOf(r), leg2, q.cents);
    NameCommutes(g, r.date, LabelOf(r), q.date, LabelOf(q));
    TallyCommutes(Name(Name(g, r.date, LabelOf(r)), q.date, LabelOf(q)), leg1, r.cents, leg2, q.cents);
  }

  lemma TakeCommutes(groups: map<Key, Group>, r: Row, q: Row)
    ensures Take(Take(groups, r), q) == Take(Take(groups, q), r)
  {
    hide RuleOf, KeyOf, Absorb;
    if RuleOf(r).Some? && RuleOf(q).Some? && KeyOf(r) == KeyOf(q) {
      AbsorbCommutes(GroupAt(groups, KeyOf(r)), r, q);
    }
  }

  lemma {:induction false} MoveToEnd(rows: seq<Row>, i: nat)
    requires i < |rows|
    ensures Grouped(rows) == Take(Grouped(rows[..i] + rows[i + 1..]), rows[i])
  {
    hide Take;
    var n := |rows| - 1;
    if i == n {
      assert rows[..i] + rows[i + 1..] == rows[..n];
    } else {
      var front, last, others := rows[..n], rows[n], rows[..i] + rows[i + 1..];
      MoveToEnd(front, i);
      assert front[..i] == rows[..i] && front[i + 1..] == rows[i + 1..n];
      assert others[..|others| - 1] == front[..i] + front[i + 1..] && others[|others| - 1] == last;
      TakeCommutes(Grouped(front[..i] + front[i + 1..]), rows[i], last);
    }
  }

  lemma {:induction false} GroupingIgnoresOrder(xs: seq<Row>, ys: seq<Row>)
    requires multiset(xs) == multiset(ys)
    ensures Grouped(xs) == Grouped(ys)
  {
    hide Take;
    if xs == [] {
      assert |multiset(ys)| == |ys|;
    } else {
      var front, r := xs[..|xs| - 1], xs[|xs| - 1];
      assert xs == front + [r];
      assert r in multiset(ys);
      var i :| 0 <= i < |ys| && ys[i] == r;
      assert ys == ys[..i] + [r] + ys[i + 1..];
      MoveToEnd(ys, i);
      assert multiset(ys[..i] + ys[i + 1..]) == multiset(ys) - multiset{r};
      assert multiset(front) == multiset(xs) - multiset{r};
      GroupingIgnoresOrder(front, ys[..i] + ys[i + 1..]);
    }
  }

  /** Any permutation of the rows gives the same event list, in the same order. */
  lemma {:induction false} EventsIgnoreOrder(xs: seq<Row>, ys: seq<Row>, kx: seq<Key>, ky: seq<Key>)
    requires multiset(xs) == multiset(ys) && ListsKeys(kx, Grouped(xs)) && ListsKeys(ky, Grouped(ys))
    ensures EventsAt(kx, Grouped(xs)) == EventsAt(ky, Grouped(ys))
  {
    hide Grouped, KeyBefore, Finish;
    GroupingIgnoresOrder(xs, ys);
    assert forall k :: k in kx <==> k in ky;
    AscendingIsUnique(kx, ky);
  }

  /* ---- what an event says about its legs ---- */

  predicate IsLeg(r: Row, k: Key, leg: Leg) {
    RuleOf(r).Some? && KeyOf(r) == k && RuleOf(r).value.leg == leg
  }

  /** How many legs of this kind an event has, with or without a readable amount. */
  function CountLegs(rows: seq<Row>, k: Key, leg: Leg, readable: bool): nat {
    if rows == [] then 0
    else
      var r := rows[|rows| - 1];
      CountLegs(rows[..|rows| - 1], k, leg, readable) + if IsLeg(r, k, leg) && r.cents.Some? == readable then 1 else 0
  }

  /** A withholding is a debit: it counts as a positive charge, and a refund as a negative one. */
  function Signed(leg: Leg, cents: int): int {
    if leg.Gross? then cents else -cents
  }

  function SumLegs(rows: seq<Row>, k: Key, leg: Leg): int {
    if rows == [] then 0
    else
      var r := rows[|rows| - 1];
      SumLegs(rows[..|rows| - 1], k, leg) + if IsLeg(r, k, leg) && r.cents.Some? then Signed(leg, r.cents.value) else 0
  }

  function Total(rows: seq<Row>, k: Key, leg: Leg): Option<int> {
    if CountLegs(rows, k, leg, true) == 0 then None else Some(SumLegs(rows, k, leg))
  }

  /** One side of an event: absent when no leg was read or when one of them had no readable amount. */
  function Side(rows: seq<Row>, k: Key, leg: Leg): Option<int> {
    if CountLegs(rows, k, leg, false) > 0 then None else Total(rows, k, leg)
  }

  predicate HasLeg(rows: seq<Row>, k: Key, leg: Leg) {
    CountLegs(rows, k, leg, true) + CountLegs(rows, k, leg, false) > 0
  }

  /** What an accumulator records of one kind of leg: seen, unreadable, and the signed cents so far. */
  function View(g: Group, leg: Leg): (bool, bool, Option<int>) {
    match leg
    case Gross => (g.sawGross, g.grossUnreadable, g.grossCents)
    case Withholding => (g.sawWithholding, g.withholdingUnreadable, g.withholdingCents)
  }

  lemma TallyView(g: Group, r: Row, leg: Leg)
    requires RuleOf(r).Some?
    ensures var (saw, unreadable, cents) := View(g, leg);
            View(Absorb(g, r), leg)
            == if RuleOf(r).value.leg != leg then (saw, unreadable, cents)
               else match r.cents
                    case Some(v) => (true, unreadable, AddTo(cents, Signed(leg, v)))
                    case None => (true, true, cents)
  {
    hide RuleOf, LabelOf;
  }

  lemma {:induction false} SumOfNone(rows: seq<Row>, k: Key, leg: Leg)
    requires CountLegs(rows, k, leg, true) == 0
    ensures SumLegs(rows, k, leg) == 0
  {
    hide IsLeg;
    if rows == [] {
    } else {
      SumOfNone(rows[..|rows| - 1], k, leg);
    }
  }

  lemma {:induction false} GroupSide(rows: seq<Row>, k: Key, leg: Leg)
    ensures View(GroupAt(Grouped(rows), k), leg)
         == (HasLeg(rows, k, leg), CountLegs(rows, k, leg, false) > 0, Total(rows, k, leg))
  {
    hide RuleOf, KeyOf, LabelOf, Absorb;
    if rows == [] {
    } else {
      var front, r := rows[..|rows| - 1], rows[|rows| - 1];
      GroupSide(front, k, leg);
      if CountLegs(front, k, leg, true) == 0 {
        SumOfNone(front, k, leg);
      }
      if RuleOf(r).Some? && KeyOf(r) == k {
        TallyView(GroupAt(Grouped(front), k), r, leg);
      }
    }
  }

  lemma {:induction false} GroupExists(rows: seq<Row>, k: Key)
    ensures k in Grouped(rows) <==> HasLeg(rows, k, Gross) || HasLeg(rows, k, Withholding)
  {
    hide RuleOf, KeyOf, Absorb;
    if rows == [] {
    } else {
      GroupExists(rows[..|rows| - 1], k);
    }
  }

  /** Every accumulator holds exactly the flags and the signed sums of the rows with its key. */
  lemma {:induction false} GroupIsItsLegs(rows: seq<Row>, k: Key)
    ensures k in Grouped(rows) <==> HasLeg(rows, k, Gross) || HasLeg(rows, k, Withholding)
    ensures var g := GroupAt(Grouped(rows), k);
            && g.sawGross == HasLeg(rows, k, Gross) && g.sawWithholding == HasLeg(rows, k, Withholding)
            && g.grossUnreadable == (CountLegs(rows, k, Gross, false) > 0)
            && g.withholdingUnreadable == (CountLegs(rows, k, Withholding, false) > 0)
            && g.grossCents == Total(rows, k, Gross) && g.withholdingCents == Total(rows, k, Withholding)
  {
    hide Grouped, HasLeg, CountLegs, Total, SumLegs;
    GroupExists(rows, k);
    GroupSide(rows, k, Gross);
    GroupSide(rows, k, Withholding);
  }

  /** An event's two sides are the signed sums of its legs, and its net, when it has one, is their difference. */
  lemma {:induction false} EventIsItsLegs(rows: seq<Row>, k: Key)
    requires k in Grouped(rows)
    ensures var e := Finish(k, Grouped(rows)[k]);
            && e.gross == Side(rows, k, Gross) && e.withholding == Side(rows, k, Withholding)
            && e.net == (if e.gross.None? then None
                         else if !HasLeg(rows, k, Withholding) then e.gross
                         else if e.withholding.None? then None
                         else Some(e.gross.value - e.withholding.value))
            && (e.unpaired == Some(Gross) <==> !HasLeg(rows, k, Gross))
            && (e.unpaired == Some(Withholding) <==> !HasLeg(rows, k, Withholding))
  {
    hide Grouped, CountLegs, SumLegs;
    GroupIsItsLegs(rows, k);
  }

  /* ---- every coded leg lands in exactly one event ---- */

  predicate Distinct(ks: seq<Key>) {
    forall i, j :: 0 <= i < j < |ks| ==> ks[i] != ks[j]
  }

  function LegsOver(ks: seq<Key>, rows: seq<Row>, leg: Leg): nat {
    if ks == [] then 0
    else LegsOver(ks[1..], rows, leg) + CountLegs(rows, ks[0], leg, true) + CountLegs(rows, ks[0], leg, false)
  }

  function SumOver(ks: seq<Key>, rows: seq<Row>, leg: Leg): int {
    if ks == [] then 0 else SumOver(ks[1..], rows, leg) + SumLegs(rows, ks[0], leg)
  }

  predicate IsCoded(r: Row, leg: Leg) {
    RuleOf(r).Some? && RuleOf(r).value.leg == leg
  }

  function CodedLegs(rows: seq<Row>, leg: Leg): nat {
    if rows == [] then 0
    else CodedLegs(rows[..|rows| - 1], leg) + if IsCoded(rows[|rows| - 1], leg) then 1 else 0
  }

  function CodedSum(rows: seq<Row>, leg: Leg): int {
    if rows == [] then 0
    else
      var r := rows[|rows| - 1];
      CodedSum(rows[..|rows| - 1], leg) + if IsCoded(r, leg) && r.cents.Some? then Signed(leg, r.cents.value) else 0
  }

  /** One more row changes the figures of its own key and of no other. */
  lemma {:induction false} OneRowOneKey(ks: seq<Key>, rows: seq<Row>, r: Row, leg: Leg)
    requires Distinct(ks)
    ensures var hit := IsCoded(r, leg) && KeyOf(r) in ks;
            && LegsOver(ks, rows + [r], leg) == LegsOver(ks, rows, leg) + (if hit then 1 else 0)
            && SumOver(ks, rows + [r], leg)
               == SumOver(ks, rows, leg) + (if hit && r.cents.Some? then Signed(leg, r.cents.value) else 0)
  {
    hide RuleOf, KeyOf;
    if ks == [] {
    } else {
      assert (rows + [r])[..|rows|] == rows;
      assert forall i :: 1 <= i < |ks| ==> ks[1..][i - 1] == ks[i];
      OneRowOneKey(ks[1..], rows, r, leg);
      assert IsCoded(r, leg) && KeyOf(r) == ks[0] ==> KeyOf(r) !in ks[1..];
    }
  }

  lemma {:induction false} NoRowsNoLegs(ks: seq<Key>, leg: Leg)
    ensures LegsOver(ks, [], leg) == 0 && SumOver(ks, [], leg) == 0
  {
    if ks == [] {
    } else {
      NoRowsNoLegs(ks[1..], leg);
    }
  }

  /**
    Over all events the legs add up to the coded legs of the input, in number and in cents: none lost,
    none counted twice.
   */
  lemma {:induction false} LegsAreConserved(ks: seq<Key>, rows: seq<Row>, leg: Leg)
    requires Distinct(ks) && forall i :: 0 <= i < |rows| && RuleOf(rows[i]).Some? ==> KeyOf(rows[i]) in ks
    ensures LegsOver(ks, rows, leg) == CodedLegs(rows, leg) && SumOver(ks, rows, leg) == CodedSum(rows, leg)
  {
    hide RuleOf, KeyOf;
    if rows == [] {
      NoRowsNoLegs(ks, leg);
    } else {
      var front, r := rows[..|rows| - 1], rows[|rows| - 1];
      LegsAreConserved(ks, front, leg);
      OneRowOneKey(ks, front, r, leg);
      assert front + [r] == rows;
    }
  }

  lemma {:induction false} CodedRowHasGroup(rows: seq<Row>, i: nat)
    requires i < |rows| && RuleOf(rows[i]).Some?
    ensures KeyOf(rows[i]) in Grouped(rows)
  {
    hide RuleOf, KeyOf, Absorb;
    if i == |rows| - 1 {
    } else {
      CodedRowHasGroup(rows[..|rows| - 1], i);
    }
  }

  /** The event list itself conserves the legs. */
  lemma {:induction false} EventsConserveLegs(rows: seq<Row>, ks: seq<Key>, leg: Leg)
    requires ListsKeys(ks, Grouped(rows))
    ensures LegsOver(ks, rows, leg) == CodedLegs(rows, leg) && SumOver(ks, rows, leg) == CodedSum(rows, leg)
  {
    hide RuleOf, KeyOf, Grouped, KeyBefore;
    forall i, j | 0 <= i < j < |ks|
      ensures ks[i] != ks[j]
    {
      KeyOrderIsTotal(ks[i], ks[j]);
    }
    forall i | 0 <= i < |rows| && RuleOf(rows[i]).Some?
      ensures KeyOf(rows[i]) in ks
    {
      CodedRowHasGroup(rows, i);
    }
    LegsAreConserved(ks, rows, leg);
  }

  lemma {:induction false} NoLegOfItsKey(rows: seq<Row>, r: Row, leg: Leg)
    requires RuleOf(r).Some? && LabelOf(r).None?
    requires forall i :: 0 <= i < |rows| && RuleOf(rows[i]).Some? ==>
               LabelOf(rows[i]) != Some(r.id) && rows[i].id != r.id
    ensures CountLegs(rows, KeyOf(r), leg, true) == 0 && CountLegs(rows, KeyOf(r), leg, false) == 0
  {
    hide RuleOf, LabelOf;
    if rows == [] {
    } else {
      NoLegOfItsKey(rows[..|rows| - 1], r, leg);
    }
  }

  /** An unlabelled leg is an event of its own, unless another row has the same id or carries that id as its label. */
  lemma {:induction false} UnlabelledStandsAlone(rows: seq<Row>, i: nat, leg: Leg)
    requires i < |rows| && RuleOf(rows[i]).Some? && LabelOf(rows[i]).None?
    requires forall j :: 0 <= j < |rows| && j != i && RuleOf(rows[j]).Some? ==>
               LabelOf(rows[j]) != Some(rows[i].id) && rows[j].id != rows[i].id
    ensures CountLegs(rows, KeyOf(rows[i]), leg, true) + CountLegs(rows, KeyOf(rows[i]), leg, false)
         == if RuleOf(rows[i]).value.leg == leg then 1 else 0
  {
    hide RuleOf, LabelOf;
    var front := rows[..|rows| - 1];
    if i == |front| {
      NoLegOfItsKey(front, rows[i], leg);
    } else {
      UnlabelledStandsAlone(front, i, leg);
    }
  }

  /* ---- totals ---- */

  datatype Totals = Totals(gross: int, withholding: int, excluded: nat)

  function TotalsOf(events: seq<Event>): Totals {
    if events == [] then Totals(0, 0, 0)
    else
      var t, e := TotalsOf(events[..|events| - 1]), events[|events| - 1];
      if e.net.Some? then t.(gross := t.gross + e.gross.GetOr(0), withholding := t.withholding + e.withholding.GetOr(0))
      else t.(excluded := t.excluded + 1)
  }

  function NetSum(events: seq<Event>): int {
    if events == [] then 0 else NetSum(events[..|events| - 1]) + events[|events| - 1].net.GetOr(0)
  }

  function Included(events: seq<Event>): nat {
    if events == [] then 0
    else Included(events[..|events| - 1]) + if events[|events| - 1].net.Some? then 1 else 0
  }

  predicate NetIsDifference(e: Event) {
    e.net.Some? ==> e.gross.Some? && e.net.value == e.gross.value - e.withholding.GetOr(0)
  }

  lemma {:induction false} TotalsAddUp(events: seq<Event>)
    requires forall i :: 0 <= i < |events| ==> NetIsDifference(events[i])
    ensures TotalsOf(events).gross - TotalsOf(events).withholding == NetSum(events)
    ensures Included(events) + TotalsOf(events).excluded == |events|
  {
    if events == [] {
    } else {
      TotalsAddUp(events[..|events| - 1]);
    }
  }

  /**
    For any rows: the reported net is the sum of the event nets, and every event is either included or
    counted as excluded.
   */
  lemma {:induction false} TotalsOfPairing(rows: seq<Row>, ks: seq<Key>)
    requires ListsKeys(ks, Grouped(rows))
    ensures var events := EventsAt(ks, Grouped(rows));
            && TotalsOf(events).gross - TotalsOf(events).withholding == NetSum(events)
            && Included(events) + TotalsOf(events).excluded == |events|
  {
    hide Grouped, KeyBefore, TotalsOf, NetSum, Included;
    var events := EventsAt(ks, Grouped(rows));
    forall i | 0 <= i < |events|
      ensures NetIsDifference(events[i])
    {
      hide Finish, CountLegs, SumLegs;
      NetOfEvent(rows, ks[i]);
    }
    TotalsAddUp(events);
  }

  lemma {:induction false} NetOfEvent(rows: seq<Row>, k: Key)
    requires k in Grouped(rows)
    ensures NetIsDifference(Finish(k, Grouped(rows)[k]))
  {
    hide Grouped, CountLegs, SumLegs;
    GroupIsItsLegs(rows, k);
  }

  /** The keys of the events that have a net. */
  function IncludedKeys(ks: seq<Key>, groups: map<Key, Group>): seq<Key>
    requires forall i :: 0 <= i < |ks| ==> ks[i] in groups
  {
    if ks == [] then []
    else
      var k := ks[|ks| - 1];
      IncludedKeys(ks[..|ks| - 1], groups) + if Finish(k, groups[k]).net.Some? then [k] else []
  }

  lemma {:induction false} SumOverAppend(ks: seq<Key>, k: Key, rows: seq<Row>, leg: Leg)
    ensures SumOver(ks + [k], rows, leg) == SumOver(ks, rows, leg) + SumLegs(rows, k, leg)
  {
    hide SumLegs;
    if ks == [] {
      assert ([] + [k])[1..] == [];
    } else {
      assert (ks + [k])[1..] == ks[1..] + [k];
      SumOverAppend(ks[1..], k, rows, leg);
    }
  }

  /** The sides of an event that has a net are the signed sums of its legs; no withholding counts as zero. */
  lemma {:induction false} SidesOfIncluded(rows: seq<Row>, k: Key)
    requires k in Grouped(rows) && Finish(k, Grouped(rows)[k]).net.Some?
    ensures var e := Finish(k, Grouped(rows)[k]);
            e.gross == Some(SumLegs(rows, k, Gross)) && e.withholding.GetOr(0) == SumLegs(rows, k, Withholding)
  {
    hide Grouped, CountLegs, SumLegs, Finish;
    EventIsItsLegs(rows, k);
    if CountLegs(rows, k, Withholding, true) == 0 {
      SumOfNone(rows, k, Withholding);
    }
  }

  /**
    Each of the two totals by itself: the signed gross, and the signed withholding, of all legs of the
    events that have a net, and of no other.
   */
  lemma {:induction false} TotalsAreTheLegs(rows: seq<Row>, ks: seq<Key>)
    requires forall i :: 0 <= i < |ks| ==> ks[i] in Grouped(rows)
    ensures var included := IncludedKeys(ks, Grouped(rows));
            var t := TotalsOf(EventsAt(ks, Grouped(rows)));
            && t.gross == SumOver(included, rows, Gross) && t.withholding == SumOver(included, rows, Withholding)
            && t.excluded == |ks| - |included|
  {
    hide Grouped, SumOver, SumLegs, Finish;
    if ks == [] {
      NothingToSum(rows);
    } else {
      var front, k := ks[..|ks| - 1], ks[|ks| - 1];
      TotalsAreTheLegs(rows, front);
      assert EventsAt(ks, Grouped(rows))[..|front|] == EventsAt(front, Grouped(rows));
      if Finish(k, Grouped(rows)[k]).net.Some? {
        SidesOfIncluded(rows, k);
        SumOverAppend(IncludedKeys(front, Grouped(rows)), k, rows, Gross);
        SumOverAppend(IncludedKeys(front, Grouped(rows)), k, rows, Withholding);
      } else {
        assert IncludedKeys(ks, Grouped(rows)) == IncludedKeys(front, Grouped(rows));
      }
    }
  }

  lemma {:induction false} NothingToSum(rows: seq<Row>)
    ensures SumOver([], rows, Gross) == 0 && SumOver([], rows, Withholding) == 0
  {
  }
}
