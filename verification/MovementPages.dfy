/** The worker's walk over the paginated movements endpoint, against any endpoint at all. */
module MovementPages {
  import opened Prelude
  import opened Text
  import opened Wire

  const PAGE_SIZE := 15
  const MAX_PAGES := 400
  const I32_MAX := 0x7fff_ffff

  /** One row as the endpoint sends it; the mandatory id may be missing or blank. */
  datatype Item = Item(id: Option<string>, details: string)
  datatype RawMovement = RawMovement(movementId: string, details: string)

  datatype Summary = Summary(
    balanceAtMovement: Option<int>,
    balanceAtSearchDate: Option<int>,
    creditSpending: Option<int>,
    debitSpending: Option<int>)

  const NO_SUMMARY := Summary(None, None, None, None)

  datatype Page = Page(items: seq<Item>, lastPage: bool, limited: bool, missing: nat, summary: Summary)

  /** The endpoint: any answer, possibly different each time it is asked. */
  type Endpoint = (nat, int) -> Result<Page, Code>

  predicate IsBlank(s: string) {
    forall i :: 0 <= i < |s| ==> IsWhitespace(s[i])
  }

  predicate Identifiable(item: Item) {
    item.id.Some? && !IsBlank(item.id.value)
  }

  /** A row without a usable id is skipped. */
  function ToRawMovement(item: Item): seq<RawMovement> {
    if Identifiable(item) then [RawMovement(item.id.value, item.details)] else []
  }

  function ToRawMovements(items: seq<Item>): seq<RawMovement> {
    if items == [] then [] else ToRawMovement(items[0]) + ToRawMovements(items[1..])
  }

  predicate Incomplete(p: Page) {
    p.limited || p.missing > 0
  }

  predicate Ends(p: Page) {
    p.lastPage || p.items == []
  }

  /** `offset.saturating_add(i32::try_from(len).unwrap_or(PAGE_SIZE))`. */
  function NextOffset(offset: int, len: nat): int {
    var advance := if len <= I32_MAX then len else PAGE_SIZE;
    if offset + advance > I32_MAX then I32_MAX else offset + advance
  }

  /** The walk from request `page` on. */
  function Walk(bank: Endpoint, page: nat, offset: int, acc: seq<RawMovement>, summary: Summary)
    : Result<(seq<RawMovement>, Summary), Code>
    decreases MAX_PAGES - page
  {
    if page >= MAX_PAGES then Err(Internal)
    else
      match bank(page, offset)
      case Err(e) => Err(e)
      case Ok(p) =>
        var first := if page == 0 then p.summary else summary;
        var got := acc + ToRawMovements(p.items);
        if Incomplete(p) then Err(Internal)
        else if Ends(p) then Ok((got, first))
        else Walk(bank, page + 1, NextOffset(offset, |p.items|), got, first)
  }

  /** The offset moves by the rows received, by 15 should there be more than an i32 can count, and never wraps. */
  lemma OffsetNeverWraps(offset: int, len: nat)
    requires 0 <= offset <= 0x7fff_ffff
    ensures var moved := offset + if len <= 0x7fff_ffff then len else 15;
            NextOffset(offset, len) == if moved <= 0x7fff_ffff then moved else 0x7fff_ffff
  {
  }

  method FetchMovementPages(bank: Endpoint) returns (res: Result<(seq<RawMovement>, Summary), Code>)
    ensures res == Walk(bank, 0, 0, [], NO_SUMMARY)
  {
    var all, summary, offset := [], NO_SUMMARY, 0;
    ghost var whole := Walk(bank, 0, 0, all, summary);
    for page := 0 to MAX_PAGES
      invariant Walk(bank, page, offset, all, summary) == whole
    {
      hide Walk, ToRawMovements, ToRawMovement, IsBlank, Identifiable;
      WalkStep(bank, page, offset, all, summary);
      var response := bank(page, offset);
      if response.Err? {
        return Err(response.error);
      }
      var p := response.value;
      var incomplete := p.limited || p.missing > 0;
      var rawPageLen := |p.items|;
      if page == 0 {
        summary := p.summary;
      }
      all := all + ToRawMovements(p.items);
      if incomplete {
        return Err(Internal);
      }
      if p.lastPage || rawPageLen == 0 {
        return Ok((all, summary));
      }
      var advance := if rawPageLen <= I32_MAX then rawPageLen else PAGE_SIZE;
      offset := if offset + advance > I32_MAX then I32_MAX else offset + advance;
    }
    WalkStep(bank, MAX_PAGES, offset, all, summary);
    res := Err(Internal);
  }

  /* ---- what is kept of the rows ---- */

  /** The row carries an id with something other than white space in it. */
  predicate HasId(item: Item) {
    item.id.Some? && exists c :: c in item.id.value && !IsWhitespace(c)
  }

  /** The items at these places, in order, are exactly those with an id, each kept with its id and details. */
  ghost predicate KeepsIdentifiable(items: seq<Item>, kept: seq<RawMovement>, places: seq<nat>) {
    && |places| == |kept|
    && (forall k :: 0 <= k < |kept| ==>
          && places[k] < |items| && HasId(items[places[k]])
          && kept[k].movementId == items[places[k]].id.value && kept[k].details == items[places[k]].details)
    && (forall j, k :: 0 <= j < k < |places| ==> places[j] < places[k])
    && (forall i :: 0 <= i < |items| && HasId(items[i]) ==> i in places)
  }

  lemma IdentifiableIs(item: Item)
    ensures Identifiable(item) <==> HasId(item)
  {
    if item.id.Some? {
      var s := item.id.value;
      if IsBlank(s) {
        assert forall c :: c in s ==> IsWhitespace(c);
      } else {
        var i :| 0 <= i < |s| && !IsWhitespace(s[i]);
        assert s[i] in s;
      }
    }
  }

  lemma {:induction false} RawOfConcat(a: seq<Item>, b: seq<Item>)
    ensures ToRawMovements(a + b) == ToRawMovements(a) + ToRawMovements(b)
  {
    if a == [] {
      assert a + b == b;
    } else {
      hide ToRawMovement;
      assert (a + b)[1..] == a[1..] + b;
      RawOfConcat(a[1..], b);
    }
  }

  /** The rows fetched are the rows with a usable id, each once, in order, unchanged. */
  lemma {:induction false} RawAreIdentifiable(items: seq<Item>) returns (places: seq<nat>)
    ensures KeepsIdentifiable(items, ToRawMovements(items), places)
  {
    hide HasId, Identifiable, ToRawMovements;
    if items == [] {
      places := [];
      NothingKept();
    } else {
      var n := |items| - 1;
      var front, last := items[..n], items[n];
      var earlier := RawAreIdentifiable(front);
      IdentifiableIs(last);
      assert items == front + [last];
      RawOfConcat(front, [last]);
      RawOfOne(last);
      places := earlier + if HasId(last) then [n] else [];
      if HasId(last) {
        OneMoreItem(front, last, ToRawMovements(front), earlier);
      } else {
        assert ToRawMovements(items) == ToRawMovements(front) && places == earlier;
      }
    }
  }

  lemma NothingKept()
    ensures KeepsIdentifiable([], ToRawMovements([]), [])
  {
  }

  lemma RawOfOne(item: Item)
    ensures ToRawMovements([item]) == if Identifiable(item) then [RawMovement(item.id.value, item.details)] else []
  {
    hide Identifiable;
    assert [item][1..] == [] && ToRawMovements([item][1..]) == [];
  }

  lemma OneMoreItem(items: seq<Item>, item: Item, kept: seq<RawMovement>, places: seq<nat>)
    requires KeepsIdentifiable(items, kept, places) && HasId(item)
    ensures KeepsIdentifiable(items + [item], kept + [RawMovement(item.id.value, item.details)], places + [|items|])
  {
    hide HasId;
    var n := |places|;
    assert (places + [|items|])[n] == |items|;
    forall i | 0 <= i < |items + [item]| && HasId((items + [item])[i])
      ensures i in places + [|items|]
    {
    }
  }

  /* ---- an endpoint that pages honestly over a statement ---- */

  /** A complete answer before the end carries the next 1 to 15 rows, and flags the last page only at the end. */
  predicate HonestAnswer(p: Page, statement: seq<Item>, offset: nat)
    requires offset <= |statement|
  {
    var k := |p.items|;
    && offset + k <= |statement| && p.items == statement[offset..offset + k] && k <= 15
    && (offset < |statement| ==> k > 0)
    && (p.lastPage ==> offset + k == |statement|)
  }

  ghost predicate Honest(bank: Endpoint, statement: seq<Item>) {
    forall page: nat, offset: nat :: offset <= |statement| && bank(page, offset).Ok? ==>
      HonestAnswer(bank(page, offset).value, statement, offset)
  }

  lemma RawOfNextPage(statement: seq<Item>, offset: nat, p: Page)
    requires offset <= |statement| && HonestAnswer(p, statement, offset)
    ensures ToRawMovements(statement[..offset]) + ToRawMovements(p.items)
         == ToRawMovements(statement[..offset + |p.items|])
  {
    hide ToRawMovements;
    var done := statement[..offset];
    assert done + p.items == statement[..offset + |p.items|];
    RawOfConcat(done, p.items);
  }

  /** The most rows that `pages` pages can bring. */
  function Reach(pages: nat): nat {
    PAGE_SIZE * pages
  }

  lemma ReachStays(page: nat, offset: nat, k: nat)
    requires page < MAX_PAGES && offset <= Reach(page) && k <= PAGE_SIZE
    ensures offset + k <= Reach(page + 1) && NextOffset(offset, k) == offset + k
  {
  }

  /** From any point of an honest walk: success is the whole statement, never a proper prefix. */
  lemma {:induction false} WalkIsWhole(bank: Endpoint, statement: seq<Item>, page: nat, offset: nat, summary: Summary)
    requires Honest(bank, statement) && offset <= |statement| && offset <= Reach(page) && page <= MAX_PAGES
    ensures var res := Walk(bank, page, offset, ToRawMovements(statement[..offset]), summary);
            res.Ok? ==> res.value.0 == ToRawMovements(statement)
    decreases MAX_PAGES - page
  {
    hide *;
    var acc := ToRawMovements(statement[..offset]);
    WalkStep(bank, page, offset, acc, summary);
    if page < MAX_PAGES && bank(page, offset).Ok? {
      var p := bank(page, offset).value;
      HonestPage(bank, statement, page, offset);
      RawOfNextPage(statement, offset, p);
      if !Incomplete(p) && !Ends(p) {
        ReachStays(page, offset, |p.items|);
        WalkIsWhole(bank, statement, page + 1, offset + |p.items|, if page == 0 then p.summary else summary);
      } else {
        assert statement[..|statement|] == statement;
      }
    }
  }

  /** One request of the walk. */
  lemma WalkStep(bank: Endpoint, page: nat, offset: int, acc: seq<RawMovement>, summary: Summary)
    ensures var res := Walk(bank, page, offset, acc, summary);
            if page >= MAX_PAGES then res == Err(Internal)
            else match bank(page, offset)
            case Err(e) => res == Err(e)
            case Ok(p) =>
              var got, first := acc + ToRawMovements(p.items), if page == 0 then p.summary else summary;
              && (Incomplete(p) ==> res == Err(Internal))
              && (!Incomplete(p) && Ends(p) ==> res == Ok((got, first)))
              && (!Incomplete(p) && !Ends(p) ==> res == Walk(bank, page + 1, NextOffset(offset, |p.items|), got, first))
  {
  }

  lemma HonestPage(bank: Endpoint, statement: seq<Item>, page: nat, offset: nat)
    requires Honest(bank, statement) && offset <= |statement| && bank(page, offset).Ok?
    ensures var p := bank(page, offset).value;
            && HonestAnswer(p, statement, offset)
            && offset + |p.items| <= |statement| && |p.items| <= PAGE_SIZE
            && (Ends(p) ==> offset + |p.items| == |statement|)
  {
  }

  /** The result of a fetch is exactly the identifiable rows of the statement, once each and in order, or an error. */
  lemma {:induction false} FetchIsWholeOrError(bank: Endpoint, statement: seq<Item>)
    requires Honest(bank, statement)
    ensures var res := Walk(bank, 0, 0, [], NO_SUMMARY);
            res.Ok? ==>
              && res.value.0 == ToRawMovements(statement)
              && bank(0, 0).Ok? && res.value.1 == bank(0, 0).value.summary
  {
    assert statement[..0] == [];
    WalkIsWhole(bank, statement, 0, 0, NO_SUMMARY);
    if bank(0, 0).Ok? {
      var p := bank(0, 0).value;
      KeepsSummary(bank, 1, NextOffset(0, |p.items|), ToRawMovements(p.items), p.summary);
      assert [] + ToRawMovements(bank(0, 0).value.items) == ToRawMovements(bank(0, 0).value.items);
    }
  }

  lemma {:induction false} KeepsSummary(bank: Endpoint, page: nat, offset: int, acc: seq<RawMovement>, summary: Summary)
    requires page > 0
    ensures var res := Walk(bank, page, offset, acc, summary); res.Ok? ==> res.value.1 == summary
    decreases MAX_PAGES - page
  {
    if page >= MAX_PAGES || bank(page, offset).Err? {
    } else {
      var p := bank(page, offset).value;
      KeepsSummary(bank, page + 1, NextOffset(offset, |p.items|), acc + ToRawMovements(p.items), summary);
    }
  }

  /* ---- exactly when the walk succeeds ---- */

  /** The offset of request `n`, when every earlier one was answered completely and did not end the walk. */
  function OffsetOf(bank: Endpoint, n: nat): Option<int> {
    if n == 0 then Some(0)
    else
      match OffsetOf(bank, n - 1)
      case None => None
      case Some(offset) =>
        match bank(n - 1, offset)
        case Err(_) => None
        case Ok(p) =>
          if p.limited || p.missing > 0 || p.lastPage || p.items == [] then None
          else Some(NextOffset(offset, |p.items|))
  }

  /** Request `n` is made and ends the walk well. */
  predicate EndsAt(bank: Endpoint, n: nat) {
    OffsetOf(bank, n).Some? &&
    var answer := bank(n, OffsetOf(bank, n).value);
    answer.Ok? && var p := answer.value; !p.limited && p.missing == 0 && (p.lastPage || p.items == [])
  }

  lemma {:induction false} SucceedsFrom(bank: Endpoint, page: nat, offset: int, acc: seq<RawMovement>, summary: Summary)
    requires page <= MAX_PAGES && OffsetOf(bank, page) == Some(offset)
    ensures Walk(bank, page, offset, acc, summary).Ok? <==> exists n: nat :: page <= n < MAX_PAGES && EndsAt(bank, n)
    decreases MAX_PAGES - page
  {
    if page < MAX_PAGES {
      var answer := bank(page, offset);
      if answer.Ok? && !Incomplete(answer.value) && !Ends(answer.value) {
        var p := answer.value;
        assert OffsetOf(bank, page + 1) == Some(NextOffset(offset, |p.items|));
        SucceedsFrom(bank, page + 1, NextOffset(offset, |p.items|), acc + ToRawMovements(p.items),
                     if page == 0 then p.summary else summary);
      } else {
        assert OffsetOf(bank, page + 1).None?;
        NoRequestAfter(bank, page + 1);
        assert EndsAt(bank, page) <==> Walk(bank, page, offset, acc, summary).Ok?;
      }
    }
  }

  lemma {:induction false} NoRequestAfter(bank: Endpoint, n: nat)
    requires OffsetOf(bank, n).None?
    ensures forall m: nat :: n <= m ==> OffsetOf(bank, m).None?
  {
    forall m: nat | n <= m
      ensures OffsetOf(bank, m).None?
    {
      StaysNone(bank, n, m);
    }
  }

  lemma {:induction false} StaysNone(bank: Endpoint, n: nat, m: nat)
    requires OffsetOf(bank, n).None? && n <= m
    ensures OffsetOf(bank, m).None?
    decreases m
  {
    if n == m {
    } else {
      StaysNone(bank, n, m - 1);
    }
  }

  /** Request `n` is made and fails the fetch with this code: the endpoint's own, or an incomplete page. */
  predicate FailsAt(bank: Endpoint, n: nat, code: Code) {
    OffsetOf(bank, n).Some? &&
    match bank(n, OffsetOf(bank, n).value)
    case Err(e) => code == e
    case Ok(p) => (p.limited || p.missing > 0) && code == Internal
  }

  lemma {:induction false} FailsFrom(bank: Endpoint, page: nat, offset: int, acc: seq<RawMovement>, summary: Summary,
                                     code: Code)
    requires page <= MAX_PAGES && OffsetOf(bank, page) == Some(offset)
    ensures Walk(bank, page, offset, acc, summary) == Err(code)
       <==> (exists n: nat :: page <= n < MAX_PAGES && FailsAt(bank, n, code))
            || (OffsetOf(bank, MAX_PAGES).Some? && code == Internal)
    decreases MAX_PAGES - page
  {
    hide Walk, ToRawMovements;
    WalkStep(bank, page, offset, acc, summary);
    if page == MAX_PAGES {
    } else {
      var answer := bank(page, offset);
      if answer.Ok? && !Incomplete(answer.value) && !Ends(answer.value) {
        var p := answer.value;
        assert OffsetOf(bank, page + 1) == Some(NextOffset(offset, |p.items|));
        FailsFrom(bank, page + 1, NextOffset(offset, |p.items|), acc + ToRawMovements(p.items),
                  if page == 0 then p.summary else summary, code);
        assert !FailsAt(bank, page, code);
      } else {
        assert OffsetOf(bank, page + 1).None?;
        NoRequestAfter(bank, page + 1);
        assert FailsAt(bank, page, code) <==> Walk(bank, page, offset, acc, summary) == Err(code);
      }
    }
  }

  /**
    Any endpoint: the fetch fails with a code exactly when a request made fails so, or with `internal` at
    the page cap.
   */
  lemma FetchFailsIff(bank: Endpoint, code: Code)
    ensures Walk(bank, 0, 0, [], NO_SUMMARY) == Err(code)
       <==> (exists n: nat :: n < MAX_PAGES && FailsAt(bank, n, code))
            || (OffsetOf(bank, 400).Some? && code == Internal)
  {
    FailsFrom(bank, 0, 0, [], NO_SUMMARY, code);
  }

  /** Any endpoint: the fetch succeeds exactly when one of the first 400 requests ends the walk well. */
  lemma FetchSucceedsIff(bank: Endpoint)
    ensures Walk(bank, 0, 0, [], NO_SUMMARY).Ok? <==> exists n: nat :: n < MAX_PAGES && EndsAt(bank, n)
  {
    SucceedsFrom(bank, 0, 0, [], NO_SUMMARY);
  }

  /** On an honest endpoint the requested offsets are the rows received so far: none saturates, none leaves a gap. */
  lemma {:induction false} OffsetsStayInside(bank: Endpoint, statement: seq<Item>, n: nat)
    requires Honest(bank, statement) && n <= MAX_PAGES
    ensures OffsetOf(bank, n).Some? ==>
              n <= OffsetOf(bank, n).value <= |statement| && OffsetOf(bank, n).value <= Reach(n)
  {
    if n == 0 {
    } else {
      OffsetsStayInside(bank, statement, n - 1);
      if OffsetOf(bank, n).Some? {
        var offset := OffsetOf(bank, n - 1).value;
        HonestPage(bank, statement, n - 1, offset);
        ReachStays(n - 1, offset, |bank(n - 1, offset).value.items|);
      }
    }
  }

  /** However short its pages, an honest endpoint that never fails is read whole if it holds fewer than 400 rows. */
  lemma ShortStatementsAlwaysArrive(bank: Endpoint, statement: seq<Item>)
    requires Honest(bank, statement) && |statement| < MAX_PAGES
    requires forall page: nat, offset: int :: bank(page, offset).Ok? && !Incomplete(bank(page, offset).value)
    ensures Walk(bank, 0, 0, [], NO_SUMMARY).Ok?
  {
    OffsetsStayInside(bank, statement, |statement| + 1);
    FetchSucceedsIff(bank);
    var n := LastRequest(bank, |statement| + 1);
  }

  /** The endpoint fills every page but the last. */
  ghost predicate FullPages(bank: Endpoint, statement: seq<Item>) {
    forall page: nat, offset: nat :: offset <= |statement| && bank(page, offset).Ok? ==>
      var left := |statement| - offset;
      |bank(page, offset).value.items| == if left < 15 then left else 15
  }

  lemma {:induction false} FullOffsets(bank: Endpoint, statement: seq<Item>, n: nat)
    requires Honest(bank, statement) && FullPages(bank, statement) && n <= MAX_PAGES
    ensures OffsetOf(bank, n).Some? ==>
              OffsetOf(bank, n).value >= if Reach(n) < |statement| then Reach(n) else |statement|
  {
    if n == 0 {
    } else {
      FullOffsets(bank, statement, n - 1);
      OffsetsStayInside(bank, statement, n - 1);
      if OffsetOf(bank, n).Some? {
        var offset := OffsetOf(bank, n - 1).value;
        HonestPage(bank, statement, n - 1, offset);
        ReachStays(n - 1, offset, |bank(n - 1, offset).value.items|);
      }
    }
  }

  /** With full pages an honest endpoint that never fails is read whole up to 399 pages of rows. */
  lemma FullPagesAlwaysArrive(bank: Endpoint, statement: seq<Item>)
    requires Honest(bank, statement) && FullPages(bank, statement) && |statement| <= 15 * 399
    requires forall page: nat, offset: int :: bank(page, offset).Ok? && !Incomplete(bank(page, offset).value)
    ensures Walk(bank, 0, 0, [], NO_SUMMARY).Ok?
  {
    FullOffsets(bank, statement, MAX_PAGES - 1);
    OffsetsStayInside(bank, statement, MAX_PAGES - 1);
    FetchSucceedsIff(bank);
    var n := LastRequest(bank, MAX_PAGES);
  }

  lemma {:induction false} LastRequest(bank: Endpoint, m: nat) returns (n: nat)
    requires OffsetOf(bank, m).None?
    requires forall page: nat, offset: int :: bank(page, offset).Ok? && !Incomplete(bank(page, offset).value)
    ensures n < m && EndsAt(bank, n)
  {
    if OffsetOf(bank, m - 1).None? {
      n := LastRequest(bank, m - 1);
    } else {
      n := m - 1;
    }
  }
}
