/** What may stand before the JSON in a model's answer: internal/orchestrator/task/manager.go. */
module Prose {
  import opened BalancedJson

  /** A character between quotation marks: itself, or any one after a backslash. */
  datatype Inside = Bare(c: char) | Escaped(c: char)

  /** A character of prose, or a quotation that is closed. */
  datatype Chunk = Letter(c: char) | Quotation(quoted: seq<Inside>)

  function InsideText(q: seq<Inside>): string {
    if q == [] then ""
    else (match q[0] case Bare(c) => [c] case Escaped(c) => ['\\', c]) + InsideText(q[1..])
  }

  function ProseText(chunks: seq<Chunk>): string {
    if chunks == [] then ""
    else
      (match chunks[0] case Letter(c) => [c] case Quotation(q) => "\"" + InsideText(q) + "\"") + ProseText(chunks[1..])
  }

  ghost predicate InsideOk(q: seq<Inside>) {
    forall n :: 0 <= n < |q| && q[n].Bare? ==> q[n].c != '"' && q[n].c != '\\'
  }

  /** Outside its quotations it holds no quotation mark and no opening bracket. */
  ghost predicate ProseOk(chunks: seq<Chunk>, open: char) {
    forall n :: 0 <= n < |chunks| ==>
      match chunks[n]
      case Letter(c) => c != '"' && c != open
      case Quotation(q) => InsideOk(q)
  }

  const Within := Scan(0, true, false)

  /** The scanner reads over a first character, or two. */
  lemma Stepped(s: Scan, a: string, b: string, open: char, close: char)
    requires 1 <= |a| <= 2
    ensures Run(s, a + b, open, close) ==
            Run(if |a| == 1 then Next(s, a[0], open, close)
                else Next(Next(s, a[0], open, close), a[1], open, close), b, open, close)
    ensures Flat(s, a + b, open, close) <==>
            && Next(s, a[0], open, close).depth == 0
            && (|a| == 2 ==> Next(Next(s, a[0], open, close), a[1], open, close).depth == 0)
            && Flat(if |a| == 1 then Next(s, a[0], open, close)
                    else Next(Next(s, a[0], open, close), a[1], open, close), b, open, close)
  {
    hide Next;
    assert (a + b)[0] == a[0];
    if |a| == 1 {
      assert (a + b)[1..] == b;
    } else {
      assert (a + b)[1..] == [a[1]] + b && ([a[1]] + b)[1..] == b;
    }
  }

  lemma {:induction false} ReadInside(q: seq<Inside>, rest: string, open: char, close: char)
    requires InsideOk(q) && Bracket(open, close)
    ensures Run(Within, InsideText(q) + rest, open, close) == Run(Within, rest, open, close)
    ensures Flat(Within, InsideText(q) + rest, open, close) <==> Flat(Within, rest, open, close)
  {
    hide Run, Flat;
    if q == [] {
      assert InsideText(q) + rest == rest;
    } else {
      var head := match q[0] case Bare(c) => [c] case Escaped(c) => ['\\', c];
      ReadInside(q[1..], rest, open, close);
      assert InsideText(q) + rest == head + (InsideText(q[1..]) + rest);
      Stepped(Within, head, InsideText(q[1..]) + rest, open, close);
    }
  }

  lemma {:induction false} ReadProse(chunks: seq<Chunk>, open: char, close: char)
    requires ProseOk(chunks, open) && Bracket(open, close)
    ensures Flat(Start, ProseText(chunks), open, close) && Run(Start, ProseText(chunks), open, close) == Start
  {
    hide InsideOk, InsideText;
    if chunks != [] {
      hide Run, Flat;
      var rest := ProseText(chunks[1..]);
      ReadProse(chunks[1..], open, close);
      match chunks[0] {
        case Letter(c) => Stepped(Start, [c], rest, open, close);
        case Quotation(q) =>
          assert ProseText(chunks) == "\"" + (InsideText(q) + ("\"" + rest));
          Stepped(Start, "\"", InsideText(q) + ("\"" + rest), open, close);
          ReadInside(q, "\"" + rest, open, close);
          Stepped(Within, "\"", rest, open, close);
      }
    }
  }

  lemma {:induction false} ParseInside(text: string, open: char, close: char) returns (q: seq<Inside>, rest: string)
    requires Flat(Within, text, open, close) && Run(Within, text, open, close) == Start && Bracket(open, close)
    ensures InsideOk(q) && text == InsideText(q) + "\"" + rest
    ensures Flat(Start, rest, open, close) && Run(Start, rest, open, close) == Start
    decreases |text|
  {
    var n := NotYetClosed(text, open, close);
    assert text == text[..n] + text[n..];
    hide Run, Flat;
    Stepped(Within, text[..n], text[n..], open, close);
    if text[0] == '"' {
      q, rest := [], text[1..];
    } else {
      var more;
      more, rest := ParseInside(text[n..], open, close);
      q := [if n == 1 then Bare(text[0]) else Escaped(text[1])] + more;
      assert q[1..] == more;
      assert text[..n] == if n == 1 then [text[0]] else ['\\', text[1]];
    }
  }

  lemma NotYetClosed(text: string, open: char, close: char) returns (n: nat)
    requires Run(Within, text, open, close) == Start
    ensures 1 <= n <= |text| && n == if text[0] == '\\' then 2 else 1
  {
    n := if text != "" && text[0] == '\\' then 2 else 1;
    if |text| == 1 {
      assert text[1..] == "";
    }
  }

  lemma {:induction false} ParseProse(text: string, open: char, close: char) returns (chunks: seq<Chunk>)
    requires Flat(Start, text, open, close) && Run(Start, text, open, close) == Start && Bracket(open, close)
    ensures ProseOk(chunks, open) && text == ProseText(chunks)
    decreases |text|
  {
    hide InsideOk, InsideText;
    if text == "" {
      chunks := [];
    } else {
      hide Run, Flat;
      assert text == [text[0]] + text[1..];
      Stepped(Start, [text[0]], text[1..], open, close);
      var more;
      if text[0] == '"' {
        var q, rest := ParseInside(text[1..], open, close);
        more := ParseProse(rest, open, close);
        chunks := [Quotation(q)] + more;
      } else {
        more := ParseProse(text[1..], open, close);
        chunks := [Letter(text[0])] + more;
      }
      assert chunks[1..] == more;
    }
  }

  /** Before an array or object the scanner stays where it started exactly when what it reads is
      prose: letters, and closed quotations with anything in them. */
  lemma EmbeddedInProse(prefix: string, v: Value, suffix: string, open: char, close: char)
    requires Ok(v) && Opens(v, open) && Bracket(open, close)
    ensures Span(prefix + Text(v) + suffix, |prefix|, |prefix + Text(v)|, open, close) <==>
            exists chunks :: ProseOk(chunks, open) && prefix == ProseText(chunks)
  {
    hide Span, Run, Flat, Text, Ok, ProseOk, ProseText;
    EmbeddedIsSpan(prefix, v, suffix, open, close);
    if Flat(Start, prefix, open, close) && Run(Start, prefix, open, close) == Start {
      var chunks := ParseProse(prefix, open, close);
    }
    if chunks :| ProseOk(chunks, open) && prefix == ProseText(chunks) {
      ReadProse(chunks, open, close);
    }
  }

  /** So after any prose, and before anything, the extractor returns exactly the JSON text. */
  lemma RecoveredAfterProse(chunks: seq<Chunk>, v: Value, suffix: string, r: string, open: char, close: char)
    requires Ok(v) && Opens(v, open) && Bracket(open, close) && ProseOk(chunks, open)
    requires Extracted(ProseText(chunks) + Text(v) + suffix, r, open, close)
    ensures r == Text(v)
  {
    hide Span, Text, Ok, ProseOk, ProseText;
    var prefix := ProseText(chunks);
    EmbeddedInProse(prefix, v, suffix, open, close);
    var all := prefix + Text(v) + suffix;
    assert all[|prefix|..|prefix + Text(v)|] == Text(v);
  }
}
