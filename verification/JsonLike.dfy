/** `normalize_json_like`: bare `undefined` tokens outside string literals become `null`. */
module JsonLike {
  import opened Prelude

  const UNDEFINED := "undefined"

  predicate IsIdentifierChar(c: Option<char>) {
    && c.Some?
    && ('a' <= c.value <= 'z' || 'A' <= c.value <= 'Z' || '0' <= c.value <= '9' || c.value == '_' || c.value == '$')
  }

  function First(s: string): Option<char> {
    if s == "" then None else Some(s[0])
  }

  /** A bare token starts here: `undefined` with no identifier character on either side. */
  predicate BareAt(s: string, prev: Option<char>) {
    UNDEFINED <= s && !IsIdentifierChar(prev) && !IsIdentifierChar(First(s[9..]))
  }

  /** Where the scanner is: inside a string literal or not, and whether the next character is escaped. */
  datatype Mode = Outside | InString(escaped: bool)

  function StepMode(m: Mode, c: char): Mode {
    match m
    case Outside => if c == '"' then InString(false) else Outside
    case InString(true) => InString(false)
    case InString(false) => if c == '\\' then InString(true) else if c == '"' then Outside else m
  }

  function Normalize(s: string, prev: Option<char>, m: Mode): string {
    if s == "" then ""
    else if m.Outside? && BareAt(s, prev) then "null" + Normalize(s[9..], Some('d'), Outside)
    else [s[0]] + Normalize(s[1..], Some(s[0]), StepMode(m, s[0]))
  }

  /** The scanner as it is written, with its three flags. */
  method NormalizeJsonLike(payload: string) returns (out: string)
    ensures out == Normalize(payload, None, Outside)
  {
    out := "";
    var inString, escaped, prev: Option<char>, i := false, false, None, 0;
    while i < |payload|
      invariant 0 <= i <= |payload|
      invariant escaped ==> inString
      invariant out + Normalize(payload[i..], prev, ModeOf(inString, escaped)) == Normalize(payload, None, Outside)
    {
      var c, rest := payload[i], payload[i..];
      ghost var m := ModeOf(inString, escaped);
      assert rest[1..] == payload[i + 1..];
      Regroup(out, [c], Normalize(rest[1..], Some(c), StepMode(m, c)));
      if inString {
        if escaped {
          escaped := false;
        } else if c == '\\' {
          escaped := true;
        } else if c == '"' {
          inString := false;
        }
      } else if c == '"' {
        inString := true;
      } else if c == 'u' && UNDEFINED <= rest && !IsIdentifierChar(prev) && !IsIdentifierChar(First(rest[9..])) {
        Regroup(out, "null", Normalize(rest[9..], Some('d'), Outside));
        assert rest[9..] == payload[i + 9..];
        out := out + "null";
        i := i + 9;
        prev := Some('d');
        continue;
      }
      out := out + [c];
      prev := Some(c);
      i := i + 1;
    }
    assert payload[i..] == "";
  }

  function ModeOf(inString: bool, escaped: bool): Mode {
    if inString then InString(escaped) else Outside
  }

  /* ---- the reference: leftmost rewriting ---- */

  /** The position of the first bare token, or None. */
  function FirstBare(s: string, prev: Option<char>, m: Mode): (r: Option<nat>)
    ensures r.Some? ==> r.value + 9 <= |s| && s[r.value..r.value + 9] == UNDEFINED
  {
    if s == "" then None
    else if m.Outside? && BareAt(s, prev) then Some(0)
    else
      match FirstBare(s[1..], Some(s[0]), StepMode(m, s[0]))
      case Some(i) => Some(i + 1)
      case None => None
  }

  /** `s` with the token at `at` replaced by `null`, and all after it rewritten, after an identifier character. */
  function ReplaceAt(s: string, at: Option<nat>): string
    requires at.Some? ==> at.value + 9 <= |s|
  {
    match at
    case None => s
    case Some(i) => s[..i] + "null" + Normalize(s[i + 9..], Some('d'), Outside)
  }

  /** Nothing changes but the first bare token; the rest is rewritten the same way. */
  lemma {:induction false} RewritesLeftmost(s: string, prev: Option<char>, m: Mode)
    ensures Normalize(s, prev, m) == ReplaceAt(s, FirstBare(s, prev, m))
  {
    if s == "" {
    } else {
      hide *;
      OneStep(s, prev, m);
      if m.Outside? && BareAt(s, prev) {
        ReplaceFirst(s);
      } else {
        RewritesLeftmost(s[1..], Some(s[0]), StepMode(m, s[0]));
        ReplaceLater(s, FirstBare(s[1..], Some(s[0]), StepMode(m, s[0])));
      }
    }
  }

  lemma ReplaceFirst(s: string)
    requires |s| >= 9
    ensures ReplaceAt(s, Some(0)) == "null" + Normalize(s[9..], Some('d'), Outside)
  {
    hide Normalize;
    assert s[..0] + "null" == "null";
  }

  lemma ReplaceLater(s: string, at: Option<nat>)
    requires s != "" && (at.Some? ==> at.value + 9 <= |s[1..]|)
    ensures [s[0]] + ReplaceAt(s[1..], at) == ReplaceAt(s, match at case Some(i) => Some(i + 1) case None => None)
  {
    hide Normalize;
    match at {
      case None =>
      case Some(i) =>
        assert s[..i + 1] == [s[0]] + s[1..][..i] && s[1..][i + 9..] == s[i + 10..];
    }
  }

  /** One character, or one token, of the scanner and of the search. */
  lemma {:induction false} OneStep(s: string, prev: Option<char>, m: Mode)
    requires s != ""
    ensures var rest, after := s[1..], StepMode(m, s[0]);
            if m.Outside? && BareAt(s, prev)
            then
              && Normalize(s, prev, m) == "null" + Normalize(s[9..], Some('d'), Outside)
              && FirstBare(s, prev, m) == Some(0)
            else && Normalize(s, prev, m) == [s[0]] + Normalize(rest, Some(s[0]), after)
                 && FirstBare(s, prev, m) == match FirstBare(rest, Some(s[0]), after)
                                             case Some(i) => Some(i + 1)
                                             case None => None
  {
  }

  lemma {:induction false} NeverLonger(s: string, prev: Option<char>, m: Mode)
    ensures |Normalize(s, prev, m)| <= |s|
    ensures FirstBare(s, prev, m).Some? ==> |Normalize(s, prev, m)| < |s|
  {
    if s == "" {
    } else {
      if m.Outside? && BareAt(s, prev) {
        NeverLonger(s[9..], Some('d'), Outside);
      } else {
        NeverLonger(s[1..], Some(s[0]), StepMode(m, s[0]));
      }
    }
  }

  /** The scanner is the identity exactly on texts without a bare token. */
  lemma {:induction false} UnchangedIffNoBare(s: string)
    ensures Normalize(s, None, Outside) == s <==> FirstBare(s, None, Outside).None?
  {
    RewritesLeftmost(s, None, Outside);
    NeverLonger(s, None, Outside);
  }

  /* ---- no bare token is left ---- */

  predicate AllIdentifier(w: string) {
    forall i :: 0 <= i < |w| ==> IsIdentifierChar(Some(w[i]))
  }

  /** Identifier characters in the output, after one, were copied from the input. */
  lemma {:induction false} CopiedWord(w: string, s: string, prev: Option<char>)
    requires AllIdentifier(w) && IsIdentifierChar(prev) && w <= Normalize(s, prev, Outside)
    ensures w <= s && First(Normalize(s, prev, Outside)[|w|..]) == First(s[|w|..])
  {
    if w == "" {
    } else {
      var out := Normalize(s, prev, Outside);
      assert s != "" && out == [s[0]] + Normalize(s[1..], Some(s[0]), StepMode(Outside, s[0]));
      assert out[0] == w[0] && IsIdentifierChar(Some(w[0])) && IsIdentifierChar(Some(s[0]));
      assert out[1..][..|w| - 1] == w[1..];
      CopiedWord(w[1..], s[1..], Some(s[0]));
      assert w == [w[0]] + w[1..] && s == [s[0]] + s[1..];
      assert s[|w|..] == s[1..][|w| - 1..] && out[|w|..] == out[1..][|w| - 1..];
    }
  }

  /** A token that starts with a copied `u` was a token of the input. */
  lemma CopiedToken(s: string, tail: string, prev: Option<char>, prev': Option<char>)
    requires s != "" && IsIdentifierChar(prev) == IsIdentifierChar(prev')
    requires s[0] == 'u' && tail == Normalize(s[1..], Some('u'), Outside)
    requires BareAt([s[0]] + tail, prev')
    ensures BareAt(s, prev)
  {
    var out := [s[0]] + tail;
    assert out[..9][1..] == tail[..8];
    CopiedWord(UNDEFINED[1..], s[1..], Some('u'));
    assert s == [s[0]] + s[1..];
    assert s[9..] == s[1..][8..] && out[9..] == tail[8..];
  }

  lemma {:induction false} OutputIsNotBare(s: string, prev: Option<char>, prev': Option<char>)
    requires s != "" && !BareAt(s, prev) && IsIdentifierChar(prev) == IsIdentifierChar(prev')
    ensures !BareAt(Normalize(s, prev, Outside), prev')
  {
    var tail := Normalize(s[1..], Some(s[0]), StepMode(Outside, s[0]));
    if BareAt([s[0]] + tail, prev') {
      assert ([s[0]] + tail)[0] == UNDEFINED[0];
      CopiedToken(s, tail, prev, prev');
    }
  }

  lemma {:induction false} AfterNull(t: string, prev: Option<char>)
    requires FirstBare(t, Some('l'), Outside).None?
    ensures FirstBare("null" + t, prev, Outside).None?
  {
    var s := "null" + t;
    assert s[1..] == "ull" + t && s[1..][1..] == "ll" + t && s[1..][1..][1..] == "l" + t && s[1..][1..][1..][1..] == t;
    assert s[0] == 'n' && s[1..][0] == 'u' && s[1..][1] == 'l' && s[1..][1..][0] == 'l' && s[1..][1..][1..][0] == 'l';
    NotBare(s, prev);
    NotBare(s[1..], Some('n'));
    NotBare(s[1..][1..], Some('u'));
    NotBare(s[1..][1..][1..], Some('l'));
    hide BareAt;
    assert FirstBare(s[1..][1..][1..], Some('l'), Outside).None?;
    assert FirstBare(s[1..][1..], Some('u'), Outside).None?;
    assert FirstBare(s[1..], Some('n'), Outside).None?;
  }

  lemma NotBare(s: string, prev: Option<char>)
    requires s != "" && (s[0] != 'u' || (|s| > 1 && s[1] != 'n'))
    ensures !BareAt(s, prev)
  {
  }

  lemma {:induction false} NoBareLeftFrom(s: string, prev: Option<char>, prev': Option<char>, m: Mode)
    requires IsIdentifierChar(prev) == IsIdentifierChar(prev')
    ensures FirstBare(Normalize(s, prev, m), prev', m).None?
  {
    if s == "" {
    } else {
      if m.Outside? && BareAt(s, prev) {
        NoBareLeftFrom(s[9..], Some('d'), Some('l'), Outside);
        AfterNull(Normalize(s[9..], Some('d'), Outside), prev');
      } else {
        if m.Outside? {
          OutputIsNotBare(s, prev, prev');
        }
        NoBareLeftFrom(s[1..], Some(s[0]), Some(s[0]), StepMode(m, s[0]));
        var out := Normalize(s, prev, m);
        assert out[1..] == Normalize(s[1..], Some(s[0]), StepMode(m, s[0]));
      }
    }
  }

  /** The output holds no bare token, so a second pass changes nothing. */
  lemma {:induction false} NoBareLeft(s: string)
    ensures var out := Normalize(s, None, Outside);
            FirstBare(out, None, Outside).None? && Normalize(out, None, Outside) == out
  {
    NoBareLeftFrom(s, None, None, Outside);
    UnchangedIffNoBare(Normalize(s, None, Outside));
  }

  /* ---- string literals ---- */

  /** The characters of all string literals, quotes included, in order. */
  function Literals(s: string, m: Mode): string {
    if s == "" then ""
    else
      (if m.Outside? && s[0] != '"' then [] else [s[0]]) + Literals(s[1..], StepMode(m, s[0]))
  }

  lemma {:induction false} NoLiteralIn(w: string, s: string)
    requires '"' !in w
    ensures Literals(w + s, Outside) == Literals(s, Outside)
  {
    if w == "" {
      assert w + s == s;
    } else {
      assert (w + s)[1..] == w[1..] + s && w[0] in w;
      NoLiteralIn(w[1..], s);
    }
  }

  /** Every character of every string literal is left as it was. */
  lemma {:induction false} LiteralsUntouched(s: string, prev: Option<char>, m: Mode)
    ensures Literals(Normalize(s, prev, m), m) == Literals(s, m)
  {
    if s == "" {
    } else {
      if m.Outside? && BareAt(s, prev) {
        LiteralsUntouched(s[9..], Some('d'), Outside);
        NoLiteralIn("null", Normalize(s[9..], Some('d'), Outside));
        NoLiteralIn(UNDEFINED, s[9..]);
        assert s == UNDEFINED + s[9..];
      } else {
        LiteralsUntouched(s[1..], Some(s[0]), StepMode(m, s[0]));
        assert Normalize(s, prev, m)[1..] == Normalize(s[1..], Some(s[0]), StepMode(m, s[0]));
      }
    }
  }
}
