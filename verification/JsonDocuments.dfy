/**
  The scanner against a grammar of documents: what it does to a text cut into string literals, words and
  other characters. The grammar knows nothing of the scanner's flags.
 */
module JsonDocuments {
  import opened Prelude
  import opened JsonLike

  /** Letters, digits, `_` and `$`. */
  predicate WordChar(c: char) {
    'a' <= c <= 'z' || 'A' <= c <= 'Z' || '0' <= c <= '9' || c == '_' || c == '$'
  }

  /** One step inside a string literal: a plain character, or a backslash and the character it escapes. */
  datatype Atom = Plain(c: char) | Escape(c: char)

  /** What a document is made of; a word is a longest run of word characters. */
  datatype Piece = Literal(body: seq<Atom>) | Word(w: string) | Other(c: char)

  predicate AtomOk(a: Atom) {
    a.Plain? ==> a.c != '"' && a.c != '\\'
  }

  predicate PieceOk(p: Piece) {
    match p
    case Literal(body) => forall i :: 0 <= i < |body| ==> AtomOk(body[i])
    case Word(w) => w != "" && forall i :: 0 <= i < |w| ==> WordChar(w[i])
    case Other(c) => c != '"' && !WordChar(c)
  }

  predicate DocumentOk(d: seq<Piece>) {
    && (forall i :: 0 <= i < |d| ==> PieceOk(d[i]))
    && (forall i :: 0 < i < |d| ==> !(d[i - 1].Word? && d[i].Word?))
  }

  function AtomText(a: Atom): string {
    match a
    case Plain(c) => [c]
    case Escape(c) => ['\\', c]
  }

  function BodyText(body: seq<Atom>): string {
    if body == [] then "" else AtomText(body[0]) + BodyText(body[1..])
  }

  function PieceText(p: Piece): string {
    match p
    case Literal(body) => ['"'] + BodyText(body) + ['"']
    case Word(w) => w
    case Other(c) => [c]
  }

  function DocumentText(d: seq<Piece>): string {
    if d == [] then "" else PieceText(d[0]) + DocumentText(d[1..])
  }

  /** The end of a text: nothing more, or a literal that is never closed, possibly cut off after a backslash. */
  datatype Ending = Complete | Open(body: seq<Atom>, slash: bool)

  predicate EndingOk(e: Ending) {
    e.Open? ==> forall i :: 0 <= i < |e.body| ==> AtomOk(e.body[i])
  }

  function EndingText(e: Ending): string {
    match e
    case Complete => ""
    case Open(body, slash) => ['"'] + (BodyText(body) + if slash then ['\\'] else "")
  }

  /** Only a word that is exactly `undefined` changes. */
  function Replaced(p: Piece): Piece {
    if p == Word("undefined") then Word("null") else p
  }

  function ReplacedAll(d: seq<Piece>): seq<Piece> {
    seq(|d|, i requires 0 <= i < |d| => Replaced(d[i]))
  }

  /* ---- literals ---- */

  /** A whole literal body is copied, escapes and all, and the scanner is outside again after its quote. */
  lemma {:induction false} LiteralIsCopied(body: seq<Atom>, rest: string, prev: Option<char>)
    requires forall i :: 0 <= i < |body| ==> AtomOk(body[i])
    ensures Normalize(BodyText(body) + ['"'] + rest, prev, InString(false))
         == BodyText(body) + ['"'] + Normalize(rest, Some('"'), Outside)
  {
    hide Normalize, BareAt, BodyText;
    var outside := Normalize(rest, Some('"'), Outside);
    Regroup(BodyText(body), ['"'], rest);
    Regroup(BodyText(body), ['"'], outside);
    if body == [] {
      EmptyBody(['"'] + rest);
      EmptyBody(['"'] + outside);
      InsideStep('"', rest, prev, false);
    } else {
      var c := body[0].c;
      assert AtomOk(body[0]);
      LiteralIsCopied(body[1..], rest, Some(c));
      Regroup(BodyText(body[1..]), ['"'], rest);
      Regroup(BodyText(body[1..]), ['"'], outside);
      BodyUnfolds(body, ['"'] + rest);
      BodyUnfolds(body, ['"'] + outside);
      AtomStep(body[0], BodyText(body[1..]) + (['"'] + rest), prev);
    }
  }

  lemma EmptyBody(tail: string)
    ensures BodyText([]) + tail == tail
  {
  }

  /** A whole atom inside a literal is copied. */
  lemma {:induction false} AtomStep(a: Atom, tail: string, prev: Option<char>)
    requires AtomOk(a)
    ensures Normalize(Prefixed(a, tail), prev, InString(false))
         == Prefixed(a, Normalize(tail, Some(a.c), InString(false)))
  {
    hide Normalize;
    match a {
      case Plain(c) => InsideStep(c, tail, prev, false);
      case Escape(c) =>
        InsideStep('\\', [c] + tail, prev, false);
        InsideStep(c, tail, Some('\\'), true);
    }
  }

  function Prefixed(a: Atom, tail: string): string {
    if a.Plain? then [a.c] + tail else ['\\'] + ([a.c] + tail)
  }

  /** One atom of a body, and what follows it. */
  lemma {:induction false} BodyUnfolds(body: seq<Atom>, tail: string)
    requires body != []
    ensures BodyText(body) + tail
         == Prefixed(body[0], BodyText(body[1..]) + tail)
  {
  }

  /** One character inside a literal. */
  lemma {:induction false} InsideStep(c: char, tail: string, prev: Option<char>, escaped: bool)
    ensures Normalize([c] + tail, prev, InString(escaped))
         == [c] + Normalize(tail, Some(c), if escaped then InString(false)
                                           else if c == '\\' then InString(true)
                                           else if c == '"' then Outside else InString(false))
  {
    assert ([c] + tail)[1..] == tail;
  }

  /* ---- words ---- */

  lemma WordCharsAre(c: char)
    ensures IsIdentifierChar(Some(c)) <==> WordChar(c)
  {
  }

  /** One character outside a literal that starts no bare token. */
  lemma {:induction false} OutsideStep(c: char, tail: string, prev: Option<char>)
    requires !BareAt([c] + tail, prev)
    ensures Normalize([c] + tail, prev, Outside)
         == [c] + Normalize(tail, Some(c), if c == '"' then InString(false) else Outside)
  {
    hide BareAt;
    assert ([c] + tail)[1..] == tail;
  }

  /** What follows a word does not go on with it. */
  predicate EndsWord(rest: string) {
    rest == "" || !WordChar(rest[0])
  }

  /** The rest of a word, after one of its characters, is copied. */
  lemma {:induction false} TailIsCopied(w: string, rest: string, prev: char)
    requires WordChar(prev) && (forall i :: 0 <= i < |w| ==> WordChar(w[i])) && EndsWord(rest)
    ensures Normalize(w + rest, Some(prev), Outside)
         == w + Normalize(rest, Some(if w == "" then prev else w[|w| - 1]), Outside)
  {
    hide Normalize;
    if w == "" {
      assert w + rest == rest;
    } else {
      var tail := w[1..] + rest;
      assert w + rest == [w[0]] + tail;
      OutsideStep(w[0], tail, Some(prev));
      TailIsCopied(w[1..], rest, w[0]);
      assert w == [w[0]] + w[1..];
    }
  }

  /** A whole word that follows no word character: `undefined` becomes `null`, any other is copied. */
  lemma WordIsReplaced(w: string, rest: string, prev: Option<char>) returns (last: char)
    requires PieceOk(Word(w)) && EndsWord(rest) && (prev.Some? ==> !WordChar(prev.value))
    ensures WordChar(last)
    ensures Normalize(w + rest, prev, Outside)
         == (if w == "undefined" then "null" else w) + Normalize(rest, Some(last), Outside)
  {
    hide Normalize;
    last := w[|w| - 1];
    if w == "undefined" {
      TokenStep(rest, prev);
    } else {
      var tail := w[1..] + rest;
      assert w + rest == [w[0]] + tail && w == [w[0]] + w[1..];
      NotTheToken(w, rest, prev);
      OutsideStep(w[0], tail, prev);
      TailIsCopied(w[1..], rest, w[0]);
    }
  }

  lemma {:induction false} TokenStep(rest: string, prev: Option<char>)
    requires EndsWord(rest) && (prev.Some? ==> !WordChar(prev.value))
    ensures Normalize("undefined" + rest, prev, Outside) == "null" + Normalize(rest, Some('d'), Outside)
  {
    var s := "undefined" + rest;
    assert s[9..] == rest && "undefined" <= s;
    assert BareAt(s, prev);
  }

  lemma NotTheToken(w: string, rest: string, prev: Option<char>)
    requires PieceOk(Word(w)) && EndsWord(rest) && w != "undefined"
    ensures !BareAt(w + rest, prev)
  {
    var s := w + rest;
    assert |w| < |s| ==> s[|w|] == rest[0] && !WordChar(s[|w|]);
    assert "undefined" <= s ==> forall i :: 0 <= i < 9 ==> s[i] == "undefined"[i] && WordChar(s[i]);
    assert |w| > 9 ==> s[9..][0] == w[9] && WordChar(w[9]);
    assert |w| == 9 ==> s[..9] == w;
  }

  /* ---- documents ---- */

  /**
    A piece is scanned on its own: the scanner is outside again after it, and after a word only a non-word
    may come.
   */
  lemma PieceStep(p: Piece, rest: string, prev: Option<char>) returns (last: char)
    requires PieceOk(p) && (p.Word? ==> EndsWord(rest) && (prev.Some? ==> !WordChar(prev.value)))
    ensures WordChar(last) <==> p.Word?
    ensures Normalize(PieceText(p) + rest, prev, Outside)
         == PieceText(Replaced(p)) + Normalize(rest, Some(last), Outside)
  {
    hide Normalize, BareAt;
    match p {
      case Literal(body) =>
        last := '"';
        var inner, out := BodyText(body) + ['"'] + rest, Normalize(rest, Some('"'), Outside);
        NoWordNoToken('"', inner, prev);
        OutsideStep('"', inner, prev);
        LiteralIsCopied(body, rest, Some('"'));
        assert PieceText(p) + rest == ['"'] + inner;
        assert PieceText(p) + out == ['"'] + (BodyText(body) + ['"'] + out);
      case Other(c) =>
        last := c;
        NoWordNoToken(c, rest, prev);
        OutsideStep(c, rest, prev);
      case Word(w) =>
        last := WordIsReplaced(w, rest, prev);
    }
  }

  lemma NoWordNoToken(c: char, rest: string, prev: Option<char>)
    requires !WordChar(c)
    ensures !BareAt([c] + rest, prev)
  {
    var s := [c] + rest;
    assert s[0] == c && "undefined"[0] == 'u';
  }

  /** From any place outside literals the scanner replaces the words that are exactly `undefined`. */
  lemma {:induction false} DocumentFrom(d: seq<Piece>, e: Ending, prev: Option<char>)
    requires DocumentOk(d) && EndingOk(e) && (d != [] && d[0].Word? && prev.Some? ==> !WordChar(prev.value))
    ensures Normalize(DocumentText(d) + EndingText(e), prev, Outside) == DocumentText(ReplacedAll(d)) + EndingText(e)
    decreases |d|
  {
    hide *;
    if d == [] {
      NothingBefore(EndingText(e));
      OpenIsCopied(e, prev);
    } else {
      var others, tail := d[1..], EndingText(e);
      OthersOk(d);
      if d[0].Word? {
        WordEnds(others, e);
      }
      var last := PieceStep(d[0], DocumentText(others) + tail, prev);
      DocumentFrom(others, e, Some(last));
      FirstAndOthers(d, tail);
    }
  }

  lemma NothingBefore(tail: string)
    ensures DocumentText([]) + tail == tail && DocumentText(ReplacedAll([])) + tail == tail
  {
  }

  lemma {:induction false} FirstAndOthers(d: seq<Piece>, tail: string)
    requires d != []
    ensures DocumentText(d) + tail == PieceText(d[0]) + (DocumentText(d[1..]) + tail)
    ensures DocumentText(ReplacedAll(d)) + tail
         == PieceText(Replaced(d[0])) + (DocumentText(ReplacedAll(d[1..])) + tail)
  {
    hide PieceText, Replaced, DocumentText, ReplacedAll;
    var r := ReplacedAll(d);
    ReplacedOthers(d);
    TextUnfolds(d);
    TextUnfolds(r);
    Regroup(PieceText(d[0]), DocumentText(d[1..]), tail);
    Regroup(PieceText(r[0]), DocumentText(r[1..]), tail);
  }

  lemma {:induction false} TextUnfolds(d: seq<Piece>)
    requires d != []
    ensures DocumentText(d) == PieceText(d[0]) + DocumentText(d[1..])
  {
    hide PieceText;
  }

  lemma ReplacedOthers(d: seq<Piece>)
    requires d != []
    ensures ReplacedAll(d) != [] && ReplacedAll(d)[0] == Replaced(d[0]) && ReplacedAll(d)[1..] == ReplacedAll(d[1..])
  {
    hide Replaced;
  }

  lemma OthersOk(d: seq<Piece>)
    requires DocumentOk(d) && d != []
    ensures PieceOk(d[0]) && DocumentOk(d[1..]) && (d[1..] != [] && d[0].Word? ==> !d[1..][0].Word?)
  {
    hide PieceOk;
    assert forall i :: 0 <= i < |d[1..]| ==> d[1..][i] == d[i + 1];
  }

  lemma {:induction false} WordEnds(d: seq<Piece>, e: Ending)
    requires DocumentOk(d) && (d != [] ==> !d[0].Word?)
    ensures EndsWord(DocumentText(d) + EndingText(e))
  {
    if d != [] {
      assert PieceOk(d[0]);
      assert DocumentText(d) == PieceText(d[0]) + DocumentText(d[1..]);
    }
  }

  /** A literal that is never closed is copied to the end. */
  lemma {:induction false} OpenIsCopied(e: Ending, prev: Option<char>)
    requires EndingOk(e)
    ensures Normalize(EndingText(e), prev, Outside) == EndingText(e)
  {
    hide Normalize, BareAt;
    NothingLeft(prev, Outside);
    if e.Open? {
      var inner := BodyText(e.body) + if e.slash then ['\\'] else "";
      NoWordNoToken('"', inner, prev);
      OutsideStep('"', inner, prev);
      OpenBody(e.body, e.slash, Some('"'));
    }
  }

  lemma {:induction false} NothingLeft(prev: Option<char>, m: Mode)
    ensures Normalize("", prev, m) == ""
  {
  }

  lemma {:induction false} OpenBody(body: seq<Atom>, slash: bool, prev: Option<char>)
    requires forall i :: 0 <= i < |body| ==> AtomOk(body[i])
    ensures var s := BodyText(body) + if slash then ['\\'] else "";
            Normalize(s, prev, InString(false)) == s
  {
    hide Normalize, BodyText;
    var end := if slash then ['\\'] else "";
    if body == [] {
      EmptyBody(end);
      NothingLeft(prev, InString(false));
      NothingLeft(Some('\\'), InString(true));
      InsideStep('\\', "", prev, false);
      assert ['\\'] + "" == ['\\'];
    } else {
      assert AtomOk(body[0]);
      OpenBody(body[1..], slash, Some(body[0].c));
      BodyUnfolds(body, end);
      AtomStep(body[0], BodyText(body[1..]) + end, prev);
    }
  }

  /** The whole scanner, on any document: the words `undefined` become `null`, and nothing else changes. */
  lemma {:induction false} DocumentIsNormalized(d: seq<Piece>, e: Ending)
    requires DocumentOk(d) && EndingOk(e)
    ensures Normalize(DocumentText(d) + EndingText(e), None, Outside) == DocumentText(ReplacedAll(d)) + EndingText(e)
  {
    DocumentFrom(d, e, None);
  }

  /* ---- every text is a document ---- */

  /** The characters after an opening quote: atoms up to the closing quote, or to the end. */
  lemma {:induction false} CutLiteral(s: string) returns (body: seq<Atom>, closed: bool, slash: bool, rest: string)
    ensures forall i :: 0 <= i < |body| ==> AtomOk(body[i])
    ensures s == BodyText(body) + if closed then ['"'] + rest else if slash then ['\\'] else ""
    ensures |rest| <= |s|
  {
    if s == "" {
      body, closed, slash, rest := [], false, false, "";
    } else if s[0] == '"' {
      body, closed, slash, rest := [], true, false, s[1..];
    } else if s == ['\\'] {
      body, closed, slash, rest := [], false, true, "";
    } else {
      var a, n := if s[0] == '\\' then Escape(s[1]) else Plain(s[0]), if s[0] == '\\' then 2 else 1;
      var more: seq<Atom>;
      more, closed, slash, rest := CutLiteral(s[n..]);
      body := [a] + more;
      assert body[1..] == more && s == AtomText(a) + s[n..];
    }
  }

  /** A text starts with a piece, unless all of it is a literal that is never closed. */
  lemma FirstPiece(s: string) returns (p: Piece, rest: string, e: Ending)
    requires s != ""
    ensures EndingOk(e) && (e.Open? ==> s == EndingText(e))
    ensures e.Complete? ==>
              && PieceOk(p) && s == PieceText(p) + rest && |rest| < |s|
              && (p.Word? <==> WordChar(s[0])) && (p.Word? ==> EndsWord(rest))
  {
    e, rest := Complete, s[1..];
    assert s == [s[0]] + rest;
    if s[0] == '"' {
      var body, closed, slash, after := CutLiteral(s[1..]);
      p, rest := Literal(body), after;
      if !closed {
        e := Open(body, slash);
      }
    } else if !WordChar(s[0]) {
      p := Other(s[0]);
    } else {
      var n := WordLength(s);
      p, rest := Word(s[..n]), s[n..];
      assert s == s[..n] + s[n..];
    }
  }

  /** Every text at all is a document and its ending, so the law above covers every input. */
  lemma {:induction false} EveryTextIsADocument(s: string) returns (d: seq<Piece>, e: Ending)
    ensures DocumentOk(d) && EndingOk(e) && s == DocumentText(d) + EndingText(e)
    ensures d != [] && d[0].Word? ==> s != "" && WordChar(s[0])
    decreases |s|
  {
    hide PieceOk, PieceText, EndingOk, WordChar, BodyText;
    if s == "" {
      d, e := [], Complete;
      NothingToClose();
    } else {
      var p, rest, end := FirstPiece(s);
      if end.Open? {
        d, e := [], end;
      } else {
        d, e := EveryTextIsADocument(rest);
        d := JoinPiece(p, d, e);
      }
    }
  }

  lemma NothingToClose()
    ensures EndingOk(Complete)
  {
  }

  function WordLength(s: string): (n: nat)
    ensures n <= |s| && (forall i :: 0 <= i < n ==> WordChar(s[i])) && (n < |s| ==> !WordChar(s[n]))
    ensures s != "" && WordChar(s[0]) ==> n > 0
  {
    if s == "" || !WordChar(s[0]) then 0 else 1 + WordLength(s[1..])
  }

  lemma JoinPiece(p: Piece, d: seq<Piece>, e: Ending) returns (joined: seq<Piece>)
    requires PieceOk(p) && DocumentOk(d) && (p.Word? && d != [] ==> !d[0].Word?)
    ensures joined == [p] + d && DocumentOk(joined)
    ensures DocumentText(joined) + EndingText(e) == PieceText(p) + (DocumentText(d) + EndingText(e))
  {
    hide PieceOk, PieceText, EndingText;
    joined := [p] + d;
    assert joined[1..] == d;
  }
}
