/** Finding a JSON text inside a model's answer: internal/orchestrator/task/manager.go,
    with the texts of RFC 8259, sections 2 to 5 and 7. */
module BalancedJson {
  import opened Wrappers
  import opened Strings

  // ---- The scanner ----

  datatype Scan = Scan(depth: nat, inString: bool, escaped: bool)

  const Start := Scan(0, false, false)

  predicate Bracket(open: char, close: char) {
    (open == '{' && close == '}') || (open == '[' && close == ']')
  }

  function Next(s: Scan, c: char, open: char, close: char): Scan {
    if s.inString then
      if s.escaped then s.(escaped := false)
      else if c == '\\' then s.(escaped := true)
      else if c == '"' then s.(inString := false)
      else s
    else if c == '"' then s.(inString := true)
    else if c == open then s.(depth := s.depth + 1)
    else if c == close && s.depth > 0 then s.(depth := s.depth - 1)
    else s
  }

  function Run(s: Scan, text: string, open: char, close: char): Scan
    decreases |text|
  {
    if text == "" then s else Run(Next(s, text[0], open, close), text[1..], open, close)
  }

  /** Every state along the way, after the first one, is at depth `d` or deeper. */
  predicate Above(s: Scan, text: string, d: nat, open: char, close: char)
    decreases |text|
  {
    text == "" ||
      (Next(s, text[0], open, close).depth >= d && Above(Next(s, text[0], open, close), text[1..], d, open, close))
  }

  /** No state along the way, after the first one, leaves depth 0. */
  predicate Flat(s: Scan, text: string, open: char, close: char)
    decreases |text|
  {
    text == "" ||
      (Next(s, text[0], open, close).depth == 0 && Flat(Next(s, text[0], open, close), text[1..], open, close))
  }

  /** The text of the first bracket that is opened outside a string, up to the position
      after which everything opened since is closed again: `p + t` is a prefix of the
      input, the scan of `p` stays at depth 0 and ends outside a string, and `t` runs
      from an opening bracket to the first return to depth 0. */
  ghost predicate Span(input: string, i: int, j: int, open: char, close: char) {
    && 0 <= i < j <= |input|
    && Flat(Start, input[..i], open, close) && Run(Start, input[..i], open, close) == Start
    && Whole(input[i..j], open, close)
  }

  ghost predicate Whole(t: string, open: char, close: char) {
    && |t| >= 2 && t[0] == open
    && Above(Scan(1, false, false), t[1..|t| - 1], 1, open, close)
    && Run(Scan(1, false, false), t[1..|t| - 1], open, close) == Scan(1, false, false)
    && t[|t| - 1] == close
  }

  lemma {:induction false} RunAppend(s: Scan, a: string, b: string, open: char, close: char)
    ensures Run(s, a + b, open, close) == Run(Run(s, a, open, close), b, open, close)
    ensures forall d: nat :: Above(s, a + b, d, open, close) <==>
      Above(s, a, d, open, close) && Above(Run(s, a, open, close), b, d, open, close)
    ensures Flat(s, a + b, open, close) <==> Flat(s, a, open, close) && Flat(Run(s, a, open, close), b, open, close)
    decreases |a|
  {
    if a == "" {
      assert a + b == b;
    } else {
      assert (a + b)[0] == a[0] && (a + b)[1..] == a[1..] + b;
      RunAppend(Next(s, a[0], open, close), a[1..], b, open, close);
    }
  }

  lemma RunOne(s: Scan, c: char, open: char, close: char)
    ensures Run(s, [c], open, close) == Next(s, c, open, close)
    ensures forall d :: Above(s, [c], d, open, close) <==> Next(s, c, open, close).depth >= d
    ensures Flat(s, [c], open, close) <==> Next(s, c, open, close).depth == 0
  {
    var n := Next(s, c, open, close);
    assert [c][1..] == "";
    assert Run(n, "", open, close) == n;
  }

  lemma RunSnoc(s: Scan, a: string, c: char, open: char, close: char)
    ensures Run(s, a + [c], open, close) == Next(Run(s, a, open, close), c, open, close)
    ensures forall d :: Above(s, a + [c], d, open, close) <==>
      Above(s, a, d, open, close) && Next(Run(s, a, open, close), c, open, close).depth >= d
    ensures Flat(s, a + [c], open, close) <==>
            Flat(s, a, open, close) && Next(Run(s, a, open, close), c, open, close).depth == 0
  {
    RunAppend(s, a, [c], open, close);
    RunOne(Run(s, a, open, close), c, open, close);
  }

  // ---- The loop ----

  /** Where the loop stands after `i` characters: nothing opened yet, or a bracket opened
      at `start` and not closed since. */
  ghost predicate Scanned(input: string, i: nat, start: int, s: Scan, open: char, close: char) {
    && i <= |input| && (s.escaped ==> s.inString)
    && if s.depth == 0 then Flat(Start, input[..i], open, close) && Run(Start, input[..i], open, close) == s
       else
         && 0 <= start < i && input[start] == open
         && Flat(Start, input[..start], open, close) && Run(Start, input[..start], open, close) == Start
         && Above(Scan(1, false, false), input[start + 1..i], 1, open, close)
         && Run(Scan(1, false, false), input[start + 1..i], open, close) == s
  }

  /** The result is the one span, or empty when there is none. */
  ghost predicate Extracted(input: string, r: string, open: char, close: char) {
    && (forall i, j :: Span(input, i, j, open, close) ==> r == input[i..j] != "")
    && (r != "" ==> exists i, j :: Span(input, i, j, open, close))
  }

  /** `extractFirstBalancedJSON` */
  method ExtractFirstBalanced(input: string, open: char, close: char) returns (r: string)
    requires Bracket(open, close)
    ensures Extracted(input, r, open, close)
  {
    hide Span, Scanned, TrimSpace;
    var start, s := -1, Start;
    var i := 0;
    FirstScanned(input, open, close);
    while i < |input|
      invariant 0 <= i <= |input| && Scanned(input, i, start, s, open, close)
    {
      var ch := input[i];
      ScannedBounds(input, i, start, s, open, close);
      ScanStep(input, i, start, s, open, close);
      if s.inString {
        s := if s.escaped then s.(escaped := false)
             else if ch == '\\' then s.(escaped := true)
             else if ch == '"' then s.(inString := false)
             else s;
      } else if ch == '"' {
        s := s.(inString := true);
      } else if ch == open {
        if s.depth == 0 {
          start := i;
        }
        s := s.(depth := s.depth + 1);
      } else if ch == close {
        if s.depth > 0 {
          s := s.(depth := s.depth - 1);
          if s.depth == 0 && start >= 0 {
            r := TrimSpace(input[start..i + 1]);
            FoundSpan(input, start, i + 1, open, close);
            return;
          }
        }
      }
      i := i + 1;
    }
    NoSpan(input, start, s, open, close);
    r := "";
  }

  lemma FirstScanned(input: string, open: char, close: char)
    ensures Scanned(input, 0, -1, Start, open, close)
  {
    assert input[..0] == "";
  }

  lemma ScannedBounds(input: string, i: nat, start: int, s: Scan, open: char, close: char)
    requires Scanned(input, i, start, s, open, close)
    ensures i <= |input| && (s.depth > 0 ==> 0 <= start < i)
  {
  }

  lemma ScanStep(input: string, i: nat, start: int, s: Scan, open: char, close: char)
    requires Scanned(input, i, start, s, open, close) && i < |input| && Bracket(open, close)
    ensures var n := Next(s, input[i], open, close);
      if s.depth == 1 && n.depth == 0 then start >= 0 && Span(input, start, i + 1, open, close)
      else Scanned(input, i + 1, if s.depth == 0 && n.depth == 1 then i else start, n, open, close)
  {
    hide Run, Above, Flat;
    var c := input[i];
    if s.depth == 0 {
      assert input[..i + 1] == input[..i] + [c];
      RunSnoc(Start, input[..i], c, open, close);
      assert input[i + 1..i + 1] == "";
      RunEmpty(open, close);
    } else {
      assert input[start + 1..i + 1] == input[start + 1..i] + [c];
      RunSnoc(Scan(1, false, false), input[start + 1..i], c, open, close);
      if s.depth == 1 && Next(s, c, open, close).depth == 0 {
        var t := input[start..i + 1];
        assert |t| == i + 1 - start && t[1..|t| - 1] == input[start + 1..i] && t[|t| - 1] == c;
        assert s == Scan(1, false, false);
      }
    }
  }

  lemma RunEmpty(open: char, close: char)
    ensures Run(Scan(1, false, false), "", open, close) == Scan(1, false, false)
    ensures Above(Scan(1, false, false), "", 1, open, close)
  {
  }

  lemma OpenedIsNotFlat(input: string, i: nat, m: nat, open: char, close: char)
    requires i < m <= |input| && input[i] == open && Run(Start, input[..i], open, close) == Start &&
             Bracket(open, close)
    ensures !Flat(Start, input[..m], open, close)
  {
    hide Run;
    assert input[..m] == input[..i] + ([open] + input[i + 1..m]);
    RunAppend(Start, input[..i], [open] + input[i + 1..m], open, close);
    assert ([open] + input[i + 1..m])[0] == open;
  }

  lemma Inside(input: string, i: nat, j: nat, open: char, close: char)
    requires i < j <= |input| && Whole(input[i..j], open, close)
    ensures i + 2 <= j && input[i] == open && input[j - 1] == close
    ensures Above(Scan(1, false, false), input[i + 1..j - 1], 1, open, close)
    ensures Run(Scan(1, false, false), input[i + 1..j - 1], open, close) == Scan(1, false, false)
  {
    hide Run, Above;
    var t := input[i..j];
    assert |t| == j - i && t[0] == input[i] && t[|t| - 1] == input[j - 1];
    var u, v := t[1..|t| - 1], input[i + 1..j - 1];
    assert |u| == |v| && forall k :: 0 <= k < |u| ==> u[k] == t[k + 1] == input[i + (k + 1)] == v[k];
    assert u == v;
  }

  lemma ClosedIsNotAbove(input: string, i: nat, j: nat, m: nat, open: char, close: char)
    requires i < j <= m <= |input| && Whole(input[i..j], open, close) && Bracket(open, close)
    ensures !Above(Scan(1, false, false), input[i + 1..m], 1, open, close)
  {
    hide Run;
    Inside(input, i, j, open, close);
    var inside := input[i + 1..j - 1];
    assert input[i + 1..m] == inside + ([close] + input[j..m]);
    RunAppend(Scan(1, false, false), inside, [close] + input[j..m], open, close);
    assert ([close] + input[j..m])[0] == close;
  }

  /** There is at most one span. */
  lemma SpanUnique(input: string, i: nat, j: nat, i': nat, j': nat, open: char, close: char)
    requires Span(input, i, j, open, close) && Span(input, i', j', open, close) && Bracket(open, close)
    ensures i == i' && j == j'
  {
    hide Run, Flat, Above, Whole;
    Inside(input, i, j, open, close);
    Inside(input, i', j', open, close);
    if i < i' {
      OpenedIsNotFlat(input, i, i', open, close);
    } else if i' < i {
      OpenedIsNotFlat(input, i', i, open, close);
    } else if j < j' {
      ClosedIsNotAbove(input, i, j, j' - 1, open, close);
    } else if j' < j {
      ClosedIsNotAbove(input, i, j', j - 1, open, close);
    }
  }

  lemma FoundSpan(input: string, i: nat, j: nat, open: char, close: char)
    requires Span(input, i, j, open, close) && Bracket(open, close)
    ensures TrimSpace(input[i..j]) == input[i..j] != ""
    ensures forall i', j' :: Span(input, i', j', open, close) ==> i == i' && j == j'
  {
    hide Run, Flat, Above;
    forall i', j' | Span(input, i', j', open, close) ensures i == i' && j == j' {
      SpanUnique(input, i, j, i', j', open, close);
    }
    var t := input[i..j];
    assert !IsSpace(t[0]) && !IsSpace(t[|t| - 1]);
    TrimmedIsFixed(t);
  }

  /** A scan that ends with nothing found has passed no span. */
  lemma NoSpan(input: string, start: int, s: Scan, open: char, close: char)
    requires Scanned(input, |input|, start, s, open, close) && Bracket(open, close)
    ensures forall i, j :: !Span(input, i, j, open, close)
  {
    hide Run, Flat, Above;
    forall i, j ensures !Span(input, i, j, open, close) {
      if Span(input, i, j, open, close) {
        assert input[i] == input[i..j][0] == open;
        if s.depth == 0 {
          OpenedIsNotFlat(input, i, |input|, open, close);
        } else if i < start {
          OpenedIsNotFlat(input, i, start, open, close);
        } else if start < i {
          OpenedIsNotFlat(input, start, i, open, close);
        } else {
          ClosedIsNotAbove(input, i, j, |input|, open, close);
        }
      }
    }
  }

  // ---- JSON texts ----

  /** A character of a string literal: itself, or after a backslash. */
  datatype Piece = Plain(c: char) | Escape(c: char) | Code(hex: string)

  /** A JSON value as it is written, with the white space around its parts. `Scalar` is
      a literal name or a number. */
  datatype Value =
    | Scalar(text: string)
    | Str(pieces: seq<Piece>)
    | Arr(elements: Elements)
    | Obj(members: Members)

  datatype Elements = NoElement(ws: string) | Element(before: string, value: Value, after: string,
                                                      more: Option<Elements>)

  datatype Members =
    | NoMember(ws: string)
    | Member(before: string, name: seq<Piece>, colon: string, gap: string, value: Value, after: string,
             more: Option<Members>)

  predicate WhiteSpace(s: string) {
    forall c :: c in s ==> c == ' ' || c == '\t' || c == '\n' || c == '\r'
  }

  predicate Name(s: string) {
    s == "true" || s == "false" || s == "null"
  }

  /** More than the numbers of section 6: any text of digits, signs, points and exponents. */
  predicate Number(s: string) {
    s != "" && forall c :: c in s ==> '0' <= c <= '9' || c == '-' || c == '+' || c == '.' || c == 'e' || c == 'E'
  }

  predicate PieceOk(p: Piece) {
    match p
    case Plain(c) => c != '"' && c != '\\' && c as int >= 0x20
    case Escape(c) => c in "\"\\/bfnrt"
    case Code(hex) => |hex| == 4 && forall c :: c in hex ==> '0' <= c <= '9' || 'a' <= c <= 'f' || 'A' <= c <= 'F'
  }

  predicate PiecesOk(pieces: seq<Piece>) {
    forall p :: p in pieces ==> PieceOk(p)
  }

  predicate Ok(v: Value) {
    match v
    case Scalar(text) => Name(text) || Number(text)
    case Str(pieces) => PiecesOk(pieces)
    case Arr(elements) => ElementsOk(elements)
    case Obj(members) => MembersOk(members)
  }

  predicate ElementsOk(e: Elements) {
    match e
    case NoElement(ws) => WhiteSpace(ws)
    case Element(before, value, after, more) =>
      WhiteSpace(before) && Ok(value) && WhiteSpace(after) &&
        (more.Some? ==> more.value.Element? && ElementsOk(more.value))
  }

  predicate MembersOk(m: Members) {
    match m
    case NoMember(ws) => WhiteSpace(ws)
    case Member(before, name, colon, gap, value, after, more) =>
      && WhiteSpace(before) && PiecesOk(name) && WhiteSpace(colon) && WhiteSpace(gap) && Ok(value) && WhiteSpace(after)
      && (more.Some? ==> more.value.Member? && MembersOk(more.value))
  }

  function PieceText(p: Piece): string {
    match p
    case Plain(c) => [c]
    case Escape(c) => ['\\', c]
    case Code(hex) => ['\\', 'u'] + hex
  }

  function PiecesText(pieces: seq<Piece>): string {
    if pieces == [] then "" else PieceText(pieces[0]) + PiecesText(pieces[1..])
  }

  function Quoted(pieces: seq<Piece>): string {
    "\"" + PiecesText(pieces) + "\""
  }

  function Text(v: Value): string {
    match v
    case Scalar(text) => text
    case Str(pieces) => Quoted(pieces)
    case Arr(elements) => "[" + ElementsText(elements) + "]"
    case Obj(members) => "{" + MembersText(members) + "}"
  }

  function ElementsText(e: Elements): string {
    match e
    case NoElement(ws) => ws
    case Element(before, value, after, more) =>
      before + Text(value) + after + match more case None => "" case Some(rest) => "," + ElementsText(rest)
  }

  function MembersText(m: Members): string {
    match m
    case NoMember(ws) => ws
    case Member(before, name, colon, gap, value, after, more) =>
      before + Quoted(name) + colon + ":" + gap + Text(value) + after +
      match more case None => "" case Some(rest) => "," + MembersText(rest)
  }

  // ---- JSON texts leave the scanner where they find it ----

  /** Read outside a string at depth `d`, the text returns there and never goes lower. */
  ghost predicate Neutral(t: string, open: char, close: char) {
    forall d: nat {:trigger Scan(d, false, false)} ::
      Run(Scan(d, false, false), t, open, close) == Scan(d, false, false) &&
        Above(Scan(d, false, false), t, d, open, close)
  }

  lemma NeutralAppend(a: string, b: string, open: char, close: char)
    requires Neutral(a, open, close) && Neutral(b, open, close)
    ensures Neutral(a + b, open, close)
  {
    hide Run, Above;
    forall d: nat
      ensures Run(Scan(d, false, false), a + b, open, close) == Scan(d, false, false)
      ensures Above(Scan(d, false, false), a + b, d, open, close)
    {
      RunAppend(Scan(d, false, false), a, b, open, close);
    }
  }

  predicate Inert(c: char) {
    c != '"' && c != '[' && c != ']' && c != '{' && c != '}'
  }

  lemma {:induction false} InertIsNeutral(t: string, open: char, close: char)
    requires Bracket(open, close) && forall c :: c in t ==> Inert(c)
    ensures Neutral(t, open, close)
  {
    if t != "" {
      InertIsNeutral(t[1..], open, close);
      assert Inert(t[0]);
    }
  }

  lemma PieceInString(d: nat, p: Piece, open: char, close: char)
    requires PieceOk(p)
    ensures Run(Scan(d, true, false), PieceText(p), open, close) == Scan(d, true, false)
    ensures Above(Scan(d, true, false), PieceText(p), d, open, close)
  {
    var s := Scan(d, true, false);
    match p {
      case Plain(c) => RunOne(s, c, open, close);
      case Escape(c) =>
        assert PieceText(p) == ['\\'] + [c];
        RunAppend(s, ['\\'], [c], open, close);
        RunOne(s, '\\', open, close);
        RunOne(Scan(d, true, true), c, open, close);
      case Code(hex) =>
        assert PieceText(p) == ['\\'] + (['u'] + hex);
        RunAppend(s, ['\\'], ['u'] + hex, open, close);
        RunOne(s, '\\', open, close);
        RunAppend(Scan(d, true, true), ['u'], hex, open, close);
        RunOne(Scan(d, true, true), 'u', open, close);
        HexInString(d, hex, open, close);
    }
  }

  lemma {:induction false} HexInString(d: nat, hex: string, open: char, close: char)
    requires forall c :: c in hex ==> c != '"' && c != '\\'
    ensures Run(Scan(d, true, false), hex, open, close) == Scan(d, true, false)
    ensures Above(Scan(d, true, false), hex, d, open, close)
  {
    if hex != "" {
      assert hex[0] in hex && forall c :: c in hex[1..] ==> c in hex;
      HexInString(d, hex[1..], open, close);
    }
  }

  lemma {:induction false} PiecesInString(d: nat, pieces: seq<Piece>, open: char, close: char)
    requires PiecesOk(pieces)
    ensures Run(Scan(d, true, false), PiecesText(pieces), open, close) == Scan(d, true, false)
    ensures Above(Scan(d, true, false), PiecesText(pieces), d, open, close)
  {
    if pieces != [] {
      PieceInString(d, pieces[0], open, close);
      PiecesInString(d, pieces[1..], open, close);
      RunAppend(Scan(d, true, false), PieceText(pieces[0]), PiecesText(pieces[1..]), open, close);
    }
  }

  lemma QuotedIsNeutral(pieces: seq<Piece>, open: char, close: char)
    requires PiecesOk(pieces)
    ensures Neutral(Quoted(pieces), open, close)
  {
    hide Run, Above;
    forall d: nat
      ensures Run(Scan(d, false, false), Quoted(pieces), open, close) == Scan(d, false, false)
      ensures Above(Scan(d, false, false), Quoted(pieces), d, open, close)
    {
      var t := PiecesText(pieces);
      PiecesInString(d, pieces, open, close);
      RunAppend(Scan(d, false, false), "\"" + t, "\"", open, close);
      RunAppend(Scan(d, false, false), "\"", t, open, close);
      RunOne(Scan(d, false, false), '"', open, close);
      RunOne(Scan(d, true, false), '"', open, close);
    }
  }

  lemma BracketedIsNeutral(o: char, t: string, c: char, open: char, close: char)
    requires Neutral(t, open, close) && Bracket(o, c) && Bracket(open, close)
    ensures Neutral([o] + t + [c], open, close)
    ensures o == open ==> Whole([o] + t + [c], open, close)
  {
    hide Run, Above;
    forall d: nat
      ensures Run(Scan(d, false, false), [o] + t + [c], open, close) == Scan(d, false, false)
      ensures Above(Scan(d, false, false), [o] + t + [c], d, open, close)
    {
      var e := if o == open then d + 1 else d;
      assert Run(Scan(e, false, false), t, open, close) == Scan(e, false, false);
      RunAppend(Scan(d, false, false), [o] + t, [c], open, close);
      RunAppend(Scan(d, false, false), [o], t, open, close);
      RunOne(Scan(d, false, false), o, open, close);
      RunOne(Scan(e, false, false), c, open, close);
      AboveMono(Scan(e, false, false), t, d, e, open, close);
    }
    var w := [o] + t + [c];
    assert w[1..|w| - 1] == t && w[|w| - 1] == c && w[0] == o;
    assert Run(Scan(1, false, false), t, open, close) == Scan(1, false, false);
  }

  lemma {:induction false} AboveMono(s: Scan, t: string, d: nat, e: nat, open: char, close: char)
    requires Above(s, t, e, open, close) && d <= e
    ensures Above(s, t, d, open, close)
    decreases |t|
  {
    if t != "" {
      AboveMono(Next(s, t[0], open, close), t[1..], d, e, open, close);
    }
  }

  lemma {:induction false} ValueIsNeutral(v: Value, open: char, close: char)
    requires Ok(v) && Bracket(open, close)
    ensures Neutral(Text(v), open, close)
    ensures (v.Arr? && open == '[') || (v.Obj? && open == '{') ==> Whole(Text(v), open, close)
  {
    hide Neutral, Whole, Run, Above;
    match v {
      case Scalar(text) => InertIsNeutral(text, open, close);
      case Str(pieces) => QuotedIsNeutral(pieces, open, close);
      case Arr(elements) =>
        ElementsAreNeutral(elements, open, close);
        BracketedIsNeutral('[', ElementsText(elements), ']', open, close);
      case Obj(members) =>
        MembersAreNeutral(members, open, close);
        BracketedIsNeutral('{', MembersText(members), '}', open, close);
    }
  }

  lemma {:induction false} ElementsAreNeutral(e: Elements, open: char, close: char)
    requires ElementsOk(e) && Bracket(open, close)
    ensures Neutral(ElementsText(e), open, close)
  {
    hide Neutral, Run, Above;
    match e {
      case NoElement(ws) => InertIsNeutral(ws, open, close);
      case Element(before, value, after, more) =>
        InertIsNeutral(before, open, close);
        InertIsNeutral(after, open, close);
        ValueIsNeutral(value, open, close);
        NeutralAppend(before, Text(value), open, close);
        NeutralAppend(before + Text(value), after, open, close);
        match more {
          case None =>
            assert before + Text(value) + after + "" == before + Text(value) + after;
          case Some(rest) =>
            ElementsAreNeutral(rest, open, close);
            InertIsNeutral(",", open, close);
            NeutralAppend(",", ElementsText(rest), open, close);
            NeutralAppend(before + Text(value) + after, "," + ElementsText(rest), open, close);
        }
    }
  }

  lemma {:induction false} MembersAreNeutral(m: Members, open: char, close: char)
    requires MembersOk(m) && Bracket(open, close)
    ensures Neutral(MembersText(m), open, close)
  {
    hide Neutral, Run, Above;
    match m {
      case NoMember(ws) => InertIsNeutral(ws, open, close);
      case Member(before, name, colon, gap, value, after, more) =>
        InertIsNeutral(before, open, close);
        InertIsNeutral(colon, open, close);
        InertIsNeutral(":", open, close);
        InertIsNeutral(gap, open, close);
        InertIsNeutral(after, open, close);
        QuotedIsNeutral(name, open, close);
        ValueIsNeutral(value, open, close);
        NeutralAppend(before, Quoted(name), open, close);
        NeutralAppend(before + Quoted(name), colon, open, close);
        NeutralAppend(before + Quoted(name) + colon, ":", open, close);
        NeutralAppend(before + Quoted(name) + colon + ":", gap, open, close);
        var key := before + Quoted(name) + colon + ":" + gap;
        NeutralAppend(key, Text(value), open, close);
        NeutralAppend(key + Text(value), after, open, close);
        match more {
          case None =>
            assert key + Text(value) + after + "" == key + Text(value) + after;
          case Some(rest) =>
            MembersAreNeutral(rest, open, close);
            InertIsNeutral(",", open, close);
            NeutralAppend(",", MembersText(rest), open, close);
            NeutralAppend(key + Text(value) + after, "," + MembersText(rest), open, close);
        }
    }
  }

  // ---- What the extractor recovers ----

  predicate Opens(v: Value, open: char) {
    (v.Arr? && open == '[') || (v.Obj? && open == '{')
  }

  /** Whatever surrounds it, the array or object that starts after `prefix` is the span
      exactly when the prefix opens no bracket and leaves no string open. */
  lemma EmbeddedIsSpan(prefix: string, v: Value, suffix: string, open: char, close: char)
    requires Ok(v) && Opens(v, open) && Bracket(open, close)
    ensures Span(prefix + Text(v) + suffix, |prefix|, |prefix + Text(v)|, open, close) <==>
            Flat(Start, prefix, open, close) && Run(Start, prefix, open, close) == Start
  {
    hide Run, Flat, Whole, Neutral, Text, Ok;
    ValueIsNeutral(v, open, close);
    var all := prefix + Text(v) + suffix;
    assert all[..|prefix|] == prefix && all[|prefix|..|prefix + Text(v)|] == Text(v);
    WholeIsLong(Text(v), open, close);
  }

  /** A quote left open before the text hides it: nothing is found in `"{}`. */
  lemma OpenQuoteHidesText(i: int, j: int)
    ensures !Span("\"" + Text(Obj(NoMember(""))) + "", i, j, '{', '}')
  {
    var input := "\"" + Text(Obj(NoMember(""))) + "";
    assert Text(Obj(NoMember(""))) == "{}" && input == "\"{}";
    if 0 < i <= |input| {
      assert input[..i][0] == '"';
      StringStaysOpen(input[..i][1..], '{', '}');
    }
  }

  lemma {:induction false} StringStaysOpen(t: string, open: char, close: char)
    requires '"' !in t && '\\' !in t
    ensures Run(Scan(0, true, false), t, open, close) == Scan(0, true, false)
  {
    if t != "" {
      assert t[0] in t && forall c :: c in t[1..] ==> c in t;
      StringStaysOpen(t[1..], open, close);
    }
  }

  lemma WholeIsLong(t: string, open: char, close: char)
    requires Whole(t, open, close)
    ensures |t| >= 2
  {
  }

  lemma {:induction false} QuietPrefix(prefix: string, open: char, close: char)
    requires forall c :: c in prefix ==> c != '"' && c != open
    ensures Flat(Start, prefix, open, close) && Run(Start, prefix, open, close) == Start
  {
    if prefix != "" {
      assert prefix[0] in prefix && forall c :: c in prefix[1..] ==> c in prefix;
      QuietPrefix(prefix[1..], open, close);
    }
  }

  /** The case the extractor is for: prose without quotes or opening brackets before one
      JSON text, and anything after it. */
  lemma EmbeddedIsRecovered(prefix: string, v: Value, suffix: string, r: string, open: char, close: char)
    requires Ok(v) && Opens(v, open) && Bracket(open, close)
    requires forall c :: c in prefix ==> c != '"' && c != open
    requires Extracted(prefix + Text(v) + suffix, r, open, close)
    ensures r == Text(v)
  {
    hide Span, Run, Flat, Text, Ok;
    QuietPrefix(prefix, open, close);
    EmbeddedIsSpan(prefix, v, suffix, open, close);
    var all := prefix + Text(v) + suffix;
    assert all[|prefix|..|prefix + Text(v)|] == Text(v);
  }
}
