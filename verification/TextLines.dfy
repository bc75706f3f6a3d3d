/** Texts and their lines. */
module TextLines {
  predicate NoLF(s: string) {
    '\n' !in s
  }

  /** `bufio.ScanLines`: the text between line feeds; nothing after a final one. */
  function Lines(text: string): seq<string>
    decreases |text|
  {
    if text == "" then []
    else
      var n := LineEnd(text);
      [text[..n]] + if n == |text| then [] else Lines(text[n + 1..])
  }

  function LineEnd(text: string): (n: nat)
    ensures n <= |text| && (n < |text| ==> text[n] == '\n') && forall i :: 0 <= i < n ==> text[i] != '\n'
  {
    if text == "" || text[0] == '\n' then 0 else 1 + LineEnd(text[1..])
  }

  /** `strings.Split(data, "\n")` */
  function SplitLines(data: string): (lines: seq<string>)
    ensures lines != []
  {
    var n := LineEnd(data);
    if n == |data| then [data] else [data[..n]] + SplitLines(data[n + 1..])
  }

  /** `strings.Join(lines, "\n")` */
  function Join(lines: seq<string>): string {
    if lines == [] then "" else if |lines| == 1 then lines[0] else lines[0] + "\n" + Join(lines[1..])
  }

  function Terminated(lines: seq<string>): string {
    if lines == [] then "" else lines[0] + "\n" + Terminated(lines[1..])
  }

  lemma LineEndOf(a: string, b: string)
    requires NoLF(a)
    ensures LineEnd(a + "\n" + b) == |a|
  {
    hide LineEnd;
    var s := a + "\n" + b;
    assert s[|a|] == '\n';
    assert forall i :: 0 <= i < |a| ==> s[i] == a[i] && a[i] in a;
  }

  lemma LinesOfOne(a: string, b: string)
    requires NoLF(a)
    ensures Lines(a + "\n" + b) == [a] + Lines(b)
  {
    hide LineEnd;
    LineEndOf(a, b);
    assert (a + "\n" + b)[..|a|] == a && (a + "\n" + b)[|a| + 1..] == b;
  }

  lemma {:induction false} LinesOfTerminated(lines: seq<string>)
    requires forall line :: line in lines ==> NoLF(line)
    ensures Lines(Terminated(lines)) == lines
  {
    hide LineEnd, NoLF;
    if lines != [] {
      LinesOfTerminated(lines[1..]);
      LinesOfOne(lines[0], Terminated(lines[1..]));
    } else {
      assert Terminated(lines) == "";
    }
  }

  lemma {:induction false} SplitLinesHaveNoLF(data: string)
    ensures forall line :: line in SplitLines(data) ==> NoLF(line)
  {
    hide LineEnd;
    var n := LineEnd(data);
    if n < |data| {
      SplitLinesHaveNoLF(data[n + 1..]);
    }
  }

  lemma {:induction false} JoinOfSplit(data: string)
    ensures Join(SplitLines(data)) == data
  {
    hide LineEnd;
    var n := LineEnd(data);
    if n < |data| {
      JoinOfSplit(data[n + 1..]);
      var rest := SplitLines(data[n + 1..]);
      assert Join([data[..n]] + rest) == data[..n] + "\n" + Join(rest) by {
        assert ([data[..n]] + rest)[1..] == rest;
      }
      assert data == data[..n] + "\n" + data[n + 1..];
    }
  }

  lemma {:induction false} SplitOfJoin(lines: seq<string>)
    requires lines != [] && forall line :: line in lines ==> NoLF(line)
    ensures SplitLines(Join(lines)) == lines
  {
    hide LineEnd, NoLF;
    if |lines| == 1 {
      WholeLine(lines[0]);
    } else {
      SplitOfJoin(lines[1..]);
      var a, b := lines[0], Join(lines[1..]);
      LineEndOf(a, b);
      assert (a + "\n" + b)[..|a|] == a && (a + "\n" + b)[|a| + 1..] == b;
    }
  }

  lemma WholeLine(a: string)
    requires NoLF(a)
    ensures LineEnd(a) == |a|
  {
    hide LineEnd;
    assert forall i :: 0 <= i < |a| ==> a[i] in a;
  }

  lemma {:induction false} TerminatedIsJoined(lines: seq<string>)
    requires lines != []
    ensures Terminated(lines) == Join(lines) + "\n"
  {
    if |lines| == 1 {
      assert Terminated(lines[1..]) == "";
    } else {
      TerminatedIsJoined(lines[1..]);
      assert lines[0] + "\n" + (Join(lines[1..]) + "\n") == lines[0] + "\n" + Join(lines[1..]) + "\n";
    }
  }

  lemma {:induction false} TerminatedSnoc(lines: seq<string>, line: string)
    ensures Terminated(lines + [line]) == Terminated(lines) + line + "\n"
  {
    if lines == [] {
      assert [] + [line] == [line] && [line][1..] == [];
    } else {
      assert (lines + [line])[0] == lines[0] && (lines + [line])[1..] == lines[1..] + [line];
      TerminatedSnoc(lines[1..], line);
      assert lines[0] + "\n" + (Terminated(lines[1..]) + line + "\n") ==
        lines[0] + "\n" + Terminated(lines[1..]) + line + "\n";
    }
  }
}
