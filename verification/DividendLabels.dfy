/**
  What makes two rows the legs of one dividend: the five codes, their prefixes, and the label behind them.
 */
module DividendLabels {
  import opened Prelude
  import opened Text
  import opened Dividends

  /* ---- trimming ---- */

  predicate AllBlank(s: string) {
    forall i :: 0 <= i < |s| ==> IsWhitespace(s[i])
  }

  /** Neither end is white space. */
  predicate Tight(s: string) {
    s != "" && !IsWhitespace(s[0]) && !IsWhitespace(s[|s| - 1])
  }

  lemma {:induction false} TrimLeftOf(pad: string, s: string)
    requires AllBlank(pad) && (s != "" ==> !IsWhitespace(s[0]))
    ensures TrimLeft(pad + s) == s
  {
    hide IsWhitespace;
    if pad == "" {
      assert pad + s == s;
    } else {
      assert (pad + s)[1..] == pad[1..] + s && (pad + s)[0] == pad[0];
      TrimLeftOf(pad[1..], s);
    }
  }

  lemma {:induction false} TrimRightOf(s: string, pad: string)
    requires AllBlank(pad) && (s != "" ==> !IsWhitespace(s[|s| - 1]))
    ensures TrimRight(s + pad) == s
  {
    hide IsWhitespace;
    if pad == "" {
      assert s + pad == s;
    } else {
      var n := |pad| - 1;
      assert (s + pad)[..|s + pad| - 1] == s + pad[..n] && (s + pad)[|s + pad| - 1] == pad[n];
      TrimRightOf(s, pad[..n]);
    }
  }

  /** Trimming takes the white space off both ends and nothing else. */
  lemma TrimIs(before: string, s: string, after: string)
    requires AllBlank(before) && AllBlank(after) && Tight(s)
    ensures Trim(before + s + after) == s
  {
    hide IsWhitespace, TrimLeft, TrimRight;
    assert before + s + after == before + (s + after) && (s + after)[0] == s[0];
    TrimLeftOf(before, s + after);
    TrimRightOf(s, after);
  }

  lemma TrimOfBlank(s: string)
    requires AllBlank(s)
    ensures Trim(s) == ""
  {
    hide IsWhitespace, TrimRight;
    TrimLeftOf(s, "");
    assert s + "" == s;
    TrimRightOf("", "");
    assert "" + "" == "";
  }

  /* ---- the five codes ---- */

  /** A spelling of a lower-case word: the same letters in any case. */
  predicate Spells(s: string, word: string) {
    |s| == |word| && forall i :: 0 <= i < |s| ==>
      s[i] == word[i] || ('a' <= word[i] <= 'z' && s[i] as int == word[i] as int - 'a' as int + 'A' as int)
  }

  predicate LowerWord(w: string) {
    forall i :: 0 <= i < |w| ==> !('A' <= w[i] <= 'Z')
  }

  lemma {:induction false} SpellsIff(s: string, word: string)
    requires LowerWord(word)
    ensures Spells(s, word) <==> ToLower(s) == word
  {
    hide ToLower;
    LowerIs(s);
  }

  lemma LowerOfAscii()
    ensures ToLower("DII") == "dii" && ToLower("DIR") == "dir" && ToLower("DER") == "der"
    ensures ToLower("DPR") == "dpr" && ToLower("RPR") == "rpr"
  {
    LowerOfThree('D', 'I', 'I');
    LowerOfThree('D', 'I', 'R');
    LowerOfThree('D', 'E', 'R');
    LowerOfThree('D', 'P', 'R');
    LowerOfThree('R', 'P', 'R');
  }

  lemma LowerOfThree(a: char, b: char, c: char)
    requires 'A' <= a <= 'Z' && 'A' <= b <= 'Z' && 'A' <= c <= 'Z'
    ensures ToLower([a, b, c]) == [(a as int + 32) as char, (b as int + 32) as char, (c as int + 32) as char]
  {
    hide ToLower;
    LowerIs([a, b, c]);
  }

  /** The table of codes, in any letter case: which leg of which kind, and the prefix before its label. */
  lemma CodesAre(code: string)
    ensures RuleFor(code)
         == if Spells(code, "dii") then Some(LegRule(Gross, Dividend, "Div.su "))
            else if Spells(code, "dir") || Spells(code, "der") then Some(LegRule(Withholding, Dividend, "Rit.div.su "))
            else if Spells(code, "dpr") then Some(LegRule(Gross, RemuneratedPortfolio, "Acc.div.Port.Rem. "))
            else if Spells(code, "rpr") then Some(LegRule(Withholding, RemuneratedPortfolio, "Add.rit.Port.Rem. "))
            else None
  {
    hide ToLower, Spells;
    LowerOfAscii();
    SpellsIff(code, "dii");
    SpellsIff(code, "dir");
    SpellsIff(code, "der");
    SpellsIff(code, "dpr");
    SpellsIff(code, "rpr");
  }

  /* ---- the label ---- */

  /** A prefix as the table has it: it starts with a letter and ends with the space before the label. */
  predicate IsPrefix(prefix: string) {
    |prefix| >= 2 && !IsWhitespace(prefix[0]) && prefix[|prefix| - 1] == ' '
  }

  /** The prefix in any letter case, then the label, white space allowed around both: the label is read. */
  lemma {:induction false} LabelIsRead(before: string, spelled: string, gap: string,
                                       name: string, after: string, prefix: string)
    requires IsPrefix(prefix) && ToLower(spelled) == ToLower(prefix)
    requires AllBlank(before) && AllBlank(gap) && AllBlank(after) && Tight(name)
    ensures SecurityLabel(Some(before + (spelled + gap + name) + after), prefix) == Some(name)
  {
    hide ToLower, Trim, IsWhitespace;
    var core := spelled + gap + name;
    SpellingKeepsEnds(spelled, prefix);
    assert core[0] == spelled[0] && core[|core| - 1] == name[|name| - 1];
    TrimIs(before, core, after);
    assert core[..|prefix|] == spelled && core[|prefix|..] == gap + name;
    TrimIs(gap, name, "");
    assert gap + name + "" == gap + name;
  }

  lemma {:induction false} SpellingKeepsEnds(spelled: string, prefix: string)
    requires IsPrefix(prefix) && ToLower(spelled) == ToLower(prefix)
    ensures |spelled| == |prefix| && !IsWhitespace(spelled[0])
  {
    hide ToLower;
    LowerIs(spelled);
    LowerIs(prefix);
  }

  /** Without the prefix, or with nothing behind it, there is no label; never the whole description. */
  lemma {:induction false} NoLabelWithout(description: string, prefix: string)
    ensures ToLower(Trim(description)[..if |prefix| <= |Trim(description)| then |prefix| else 0]) != ToLower(prefix)
            ==> SecurityLabel(Some(description), prefix) == None
    ensures |prefix| <= |Trim(description)| && AllBlank(Trim(description)[|prefix|..])
            ==> SecurityLabel(Some(description), prefix) == None
    ensures SecurityLabel(None, prefix) == None
  {
    hide ToLower, IsWhitespace;
    if |prefix| <= |Trim(description)| && AllBlank(Trim(description)[|prefix|..]) {
      TrimOfBlank(Trim(description)[|prefix|..]);
    }
  }

  /* ---- the two legs of one dividend ---- */

  /** A row with this code, dated, whose description is this prefix followed by this label. */
  predicate Carries(r: Row, code: string, prefix: string, date: string, name: string) {
    r.code == Some(code) && r.description == Some(prefix + name) && r.date == Some(date)
  }

  /** A gross leg of a kind, spelled out. */
  predicate IsGrossOf(r: Row, kind: Kind, date: string, name: string) {
    match kind
    case Dividend => Carries(r, "DII", "Div.su ", date, name)
    case RemuneratedPortfolio => Carries(r, "DPR", "Acc.div.Port.Rem. ", date, name)
  }

  /** A withholding leg of a kind, spelled out; a dividend's may be domestic or foreign. */
  predicate IsWithholdingOf(r: Row, kind: Kind, date: string, name: string) {
    match kind
    case Dividend => Carries(r, "DIR", "Rit.div.su ", date, name) || Carries(r, "DER", "Rit.div.su ", date, name)
    case RemuneratedPortfolio => Carries(r, "RPR", "Add.rit.Port.Rem. ", date, name)
  }

  predicate IsLegOf(r: Row, leg: Leg, kind: Kind, date: string, name: string) {
    if leg.Gross? then IsGrossOf(r, kind, date, name) else IsWithholdingOf(r, kind, date, name)
  }

  lemma RuleOfCode(r: Row, code: string)
    requires r.code == Some(code) && Tight(code)
    ensures RuleOf(r) == RuleFor(code)
  {
    hide RuleFor, Trim, Tight;
    TrimIs("", code, "");
    assert "" + code + "" == code;
  }

  lemma RulesOfLiterals()
    ensures RuleFor("DII") == Some(LegRule(Gross, Dividend, "Div.su "))
    ensures RuleFor("DIR") == Some(LegRule(Withholding, Dividend, "Rit.div.su "))
    ensures RuleFor("DER") == Some(LegRule(Withholding, Dividend, "Rit.div.su "))
    ensures RuleFor("DPR") == Some(LegRule(Gross, RemuneratedPortfolio, "Acc.div.Port.Rem. "))
    ensures RuleFor("RPR") == Some(LegRule(Withholding, RemuneratedPortfolio, "Add.rit.Port.Rem. "))
  {
    hide ToLower;
    LowerOfAscii();
  }

  /** The prefix of a leg of a kind. */
  function PrefixOf(leg: Leg, kind: Kind): string {
    match (leg, kind)
    case (Gross, Dividend) => "Div.su "
    case (Withholding, Dividend) => "Rit.div.su "
    case (Gross, RemuneratedPortfolio) => "Acc.div.Port.Rem. "
    case (Withholding, RemuneratedPortfolio) => "Add.rit.Port.Rem. "
  }

  lemma RuleOfLeg(r: Row, leg: Leg, kind: Kind, date: string, name: string)
    requires IsLegOf(r, leg, kind, date, name)
    ensures RuleOf(r) == Some(LegRule(leg, kind, PrefixOf(leg, kind)))
    ensures r.description == Some(PrefixOf(leg, kind) + name) && r.date == Some(date)
  {
    hide RuleOf, RuleFor;
    RulesOfLiterals();
    RuleOfCode(r, r.code.value);
  }

  lemma PrefixesArePrefixes(leg: Leg, kind: Kind)
    ensures IsPrefix(PrefixOf(leg, kind))
  {
  }

  /** A leg's event is named by its date, its kind and its label, whichever leg it is. */
  lemma KeyOfLeg(r: Row, leg: Leg, kind: Kind, date: string, name: string)
    requires IsLegOf(r, leg, kind, date, name) && Tight(name)
    ensures RuleOf(r).Some? && RuleOf(r).value.leg == leg && RuleOf(r).value.kind == kind
    ensures KeyOf(r) == Key(date, kind, name) && LabelOf(r) == Some(name)
  {
    hide RuleOf, Trim, ToLower, IsWhitespace, SecurityLabel, IsPrefix, PrefixOf, IsLegOf;
    var prefix := PrefixOf(leg, kind);
    RuleOfLeg(r, leg, kind, date, name);
    PrefixesArePrefixes(leg, kind);
    LabelIsRead("", prefix, "", name, "", prefix);
    assert "" + (prefix + "" + name) + "" == prefix + name;
  }

  /** Two labelled legs share an event exactly when they agree on date, kind and label. */
  lemma LegsMeetIff(r: Row, q: Row, leg: Leg, leg': Leg, kind: Kind, kind': Kind,
                    date: string, date': string, name: string, name': string)
    requires IsLegOf(r, leg, kind, date, name) && Tight(name)
    requires IsLegOf(q, leg', kind', date', name') && Tight(name')
    ensures RuleOf(r).Some? && RuleOf(q).Some?
    ensures KeyOf(r) == KeyOf(q) <==> date == date' && kind == kind' && name == name'
  {
    hide RuleOf, KeyOf, IsLegOf, Tight;
    KeyOfLeg(r, leg, kind, date, name);
    KeyOfLeg(q, leg', kind', date', name');
  }

  /* ---- the event of a key ---- */

  /** A row of this key that carries a label. */
  predicate Names(r: Row, k: Key) {
    RuleOf(r).Some? && KeyOf(r) == k && LabelOf(r).Some?
  }

  /** A row of this key that carries a date. */
  predicate Dates(r: Row, k: Key) {
    RuleOf(r).Some? && KeyOf(r) == k && r.date.Some?
  }

  predicate Named(rows: seq<Row>, k: Key) {
    exists i :: 0 <= i < |rows| && Names(rows[i], k)
  }

  predicate Dated(rows: seq<Row>, k: Key) {
    exists i :: 0 <= i < |rows| && Dates(rows[i], k)
  }

  lemma NamedSoFar(rows: seq<Row>, k: Key)
    requires rows != []
    ensures var n := |rows| - 1;
            && (Named(rows, k) <==> Named(rows[..n], k) || Names(rows[n], k))
            && (Dated(rows, k) <==> Dated(rows[..n], k) || Dates(rows[n], k))
  {
    hide Names, Dates;
    var n := |rows| - 1;
    assert forall i :: 0 <= i < n ==> rows[..n][i] == rows[i];
  }

  /** What one more row does to the name and the date of its group. */
  lemma AbsorbNames(g: Group, r: Row)
    requires RuleOf(r).Some?
    ensures Absorb(g, r).security == if g.security.None? then LabelOf(r) else g.security
    ensures Absorb(g, r).payDate == if g.payDate.None? then r.date else g.payDate
  {
    hide RuleOf, LabelOf;
  }

  lemma KeyNames(r: Row, k: Key)
    requires RuleOf(r).Some? && KeyOf(r) == k
    ensures LabelOf(r) == (if Names(r, k) then Some(k.name) else None)
    ensures r.date == (if Dates(r, k) then Some(k.date) else None)
  {
    hide RuleOf, LabelOf;
  }

  lemma {:induction false} GroupNames(rows: seq<Row>, k: Key)
    ensures var g := GroupAt(Grouped(rows), k);
            && g.security == (if Named(rows, k) then Some(k.name) else None)
            && g.payDate == (if Dated(rows, k) then Some(k.date) else None)
  {
    hide RuleOf, LabelOf, KeyOf, Names, Dates, Absorb;
    if rows == [] {
    } else {
      var n := |rows| - 1;
      var front, r := rows[..n], rows[n];
      GroupNames(front, k);
      NamedSoFar(rows, k);
      hide Named, Dated;
      if RuleOf(r).Some? && KeyOf(r) == k {
        AbsorbNames(GroupAt(Grouped(front), k), r);
        KeyNames(r, k);
      } else {
        OtherNames(r, k);
      }
    }
  }

  lemma OtherNames(r: Row, k: Key)
    requires RuleOf(r).None? || KeyOf(r) != k
    ensures !Names(r, k) && !Dates(r, k)
  {
    hide RuleOf, KeyOf;
  }

  /** An event carries its key's kind, its date if a row of it has one, and the label if a row of it has one. */
  lemma {:induction false} EventIsNamed(rows: seq<Row>, k: Key)
    requires k in Grouped(rows)
    ensures var e := Finish(k, Grouped(rows)[k]);
            && e.kind == k.kind
            && e.security == (if Named(rows, k) then Some(k.name) else None)
            && e.payDate == (if Dated(rows, k) then Some(k.date) else None)
  {
    hide Grouped, Names, Dates;
    GroupNames(rows, k);
  }

  /**
    A gross leg and a withholding leg of one label, date and kind, wherever they stand among the rows, meet in
    one event, which carries the label and the date and misses no leg.
   */
  lemma {:induction false} LegsShareOneEvent(rows: seq<Row>, i: nat, j: nat, kind: Kind, date: string, name: string)
    requires i < |rows| && j < |rows| && Tight(name)
    requires IsGrossOf(rows[i], kind, date, name) && IsWithholdingOf(rows[j], kind, date, name)
    ensures var k := Key(date, kind, name);
            && k in Grouped(rows)
            && var e := Finish(k, Grouped(rows)[k]);
               e.security == Some(name) && e.payDate == Some(date) && e.kind == kind && e.unpaired == None
  {
    hide RuleOf, KeyOf, LabelOf, IsGrossOf, IsWithholdingOf, Grouped, Finish;
    var k := Key(date, kind, name);
    LegIsIn(rows, i, Gross, kind, date, name);
    LegIsIn(rows, j, Withholding, kind, date, name);
    hide Dividends.HasLeg;
    GroupExists(rows, k);
    EventIsNamed(rows, k);
    EventIsItsLegs(rows, k);
    UnpairedIsNone(Finish(k, Grouped(rows)[k]));
  }

  lemma UnpairedIsNone(e: Event)
    requires e.unpaired != Some(Gross) && e.unpaired != Some(Withholding)
    ensures e.unpaired == None
  {
    match e.unpaired {
      case None =>
      case Some(leg) =>
        match leg {
          case Gross =>
          case Withholding =>
        }
    }
  }

  lemma LegIsIn(rows: seq<Row>, i: nat, leg: Leg, kind: Kind, date: string, name: string)
    requires i < |rows| && Tight(name) && IsLegOf(rows[i], leg, kind, date, name)
    ensures var k := Key(date, kind, name);
            Names(rows[i], k) && Dates(rows[i], k) && HasLeg(rows, k, leg)
  {
    hide RuleOf, LabelOf, Tight;
    KeyOfLeg(rows[i], leg, kind, date, name);
    hide KeyOf;
    CountsIt(rows, i, Key(date, kind, name), leg);
  }

  lemma {:induction false} CountsIt(rows: seq<Row>, i: nat, k: Key, leg: Leg)
    requires i < |rows| && IsLeg(rows[i], k, leg)
    ensures HasLeg(rows, k, leg)
  {
    hide IsLeg;
    if i == |rows| - 1 {
    } else {
      CountsIt(rows[..|rows| - 1], i, k, leg);
    }
  }

  /** The plainest statement: a dividend of one security and its withholding are one event with their difference. */
  lemma OneDividend(gross: Row, withheld: Row, kind: Kind, date: string, name: string, ks: seq<Key>)
    requires IsGrossOf(gross, kind, date, name) && IsWithholdingOf(withheld, kind, date, name) && Tight(name)
    requires gross.cents.Some? && withheld.cents.Some?
    requires ListsKeys(ks, Grouped([gross, withheld]))
    ensures var g, w := gross.cents.value, -withheld.cents.value;
            EventsAt(ks, Grouped([gross, withheld]))
            == [Event(Some(date), Some(name), kind, Some(g), Some(w), Some(g - w), None)]
  {
    var k := Key(date, kind, name);
    KeyOfLeg(gross, Gross, kind, date, name);
    KeyOfLeg(withheld, Withholding, kind, date, name);
    DateOfLeg(gross, Gross, kind, date, name);
    DateOfLeg(withheld, Withholding, kind, date, name);
    hide *;
    GroupOfTwo(gross, withheld, k);
    OnlyKey(ks, k, Absorb(Absorb(NEW_GROUP, gross), withheld));
    OnlyEvent(k, Absorb(Absorb(NEW_GROUP, gross), withheld));
    EventOfTwo(gross, withheld, k);
  }

  lemma OnlyEvent(k: Key, g: Group)
    ensures EventsAt([k], map[k := g]) == [Finish(k, g)]
  {
    hide Finish;
  }

  lemma DateOfLeg(r: Row, leg: Leg, kind: Kind, date: string, name: string)
    requires IsLegOf(r, leg, kind, date, name)
    ensures r.date == Some(date)
  {
  }

  lemma GroupOfTwo(r: Row, q: Row, k: Key)
    requires RuleOf(r).Some? && RuleOf(q).Some? && KeyOf(r) == k && KeyOf(q) == k
    ensures Grouped([r, q]) == map[k := Absorb(Absorb(NEW_GROUP, r), q)]
  {
    hide RuleOf, KeyOf, Absorb;
    assert [r, q][..1] == [r] && [r][..0] == [];
    assert Grouped([]) == map[];
    assert Grouped([r]) == map[k := Absorb(NEW_GROUP, r)];
  }

  lemma EventOfTwo(gross: Row, withheld: Row, k: Key)
    requires RuleOf(gross).Some? && RuleOf(gross).value.leg == Gross && gross.date == Some(k.date)
    requires RuleOf(withheld).Some? && RuleOf(withheld).value.leg == Withholding && withheld.date == Some(k.date)
    requires LabelOf(gross) == Some(k.name) && gross.cents.Some? && withheld.cents.Some?
    ensures var g, w := gross.cents.value, -withheld.cents.value;
            Finish(k, Absorb(Absorb(NEW_GROUP, gross), withheld))
            == Event(Some(k.date), Some(k.name), k.kind, Some(g), Some(w), Some(g - w), None)
  {
    hide RuleOf, LabelOf;
  }

  lemma OnlyKey(ks: seq<Key>, k: Key, g: Group)
    requires ListsKeys(ks, map[k := g])
    ensures ks == [k]
  {
    hide KeyBefore;
    assert k in map[k := g].Keys;
    assert Ascending([k]);
    AscendingIsUnique(ks, [k]);
  }

  /** Events come by date, then dividends before portfolio interest, then by label or row id. */
  lemma {:induction false} EventsAreOrdered(rows: seq<Row>, ks: seq<Key>, i: nat, j: nat)
    requires ListsKeys(ks, Grouped(rows)) && i < j < |ks|
    ensures var a, b := ks[i], ks[j];
            || Before(a.date, b.date)
            || (a.date == b.date && a.kind == Dividend && b.kind == RemuneratedPortfolio)
            || (a.date == b.date && a.kind == b.kind && Before(a.name, b.name))
  {
    hide Grouped, Before;
  }
}
