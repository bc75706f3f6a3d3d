/** Skill files: the printer of internal/skill/repository/file_repository.go and the two
    parsers of internal/skill/registry.go and internal/skill/parser/yaml_parser.go. The YAML
    inside the header is not looked at. */
module Frontmatter {
  import opened Wrappers
  import opened Strings
  import TextLines

  datatype Skill = Skill(name: string, description: string, tags: seq<string>, tools: seq<string>, content: string)

  // ---- Finding a separator ----

  predicate OccursAt(s: string, sep: string, i: int) {
    0 <= i && i + |sep| <= |s| && s[i..i + |sep|] == sep
  }

  lemma OccursInTail(s: string, sep: string, i: int)
    requires s != "" && i >= 1
    ensures OccursAt(s, sep, i) <==> OccursAt(s[1..], sep, i - 1)
  {
    if i + |sep| <= |s| {
      var u, v := s[i..i + |sep|], s[1..][i - 1..i - 1 + |sep|];
      assert |u| == |v| && forall k :: 0 <= k < |u| ==> u[k] == s[i + k] == v[k];
      assert u == v;
    }
  }

  /** The first occurrence, or -1 when there is none. */
  ghost predicate IsFirst(s: string, sep: string, r: int) {
    && (r == -1 || OccursAt(s, sep, r))
    && forall i :: OccursAt(s, sep, i) ==> 0 <= r <= i
  }

  lemma FirstOfTail(s: string, sep: string, r: int)
    requires s != "" && !OccursAt(s, sep, 0) && IsFirst(s[1..], sep, r)
    ensures IsFirst(s, sep, if r < 0 then -1 else r + 1)
  {
    hide OccursAt;
    forall i | OccursAt(s, sep, i) && i >= 1 ensures 0 <= r <= i - 1 {
      OccursInTail(s, sep, i);
    }
    forall i | OccursAt(s, sep, i) ensures i >= 0 {
      OccursFrom(s, sep, i);
    }
    if r >= 0 {
      OccursInTail(s, sep, r + 1);
    }
  }

  lemma OccursFrom(s: string, sep: string, i: int)
    requires OccursAt(s, sep, i)
    ensures 0 <= i
  {
  }

  /** `strings.Index` */
  function Index(s: string, sep: string): (r: int)
    ensures IsFirst(s, sep, r) && r >= -1
  {
    if OccursAt(s, sep, 0) then 0
    else if s == "" then -1
    else
      var r := Index(s[1..], sep);
      FirstOfTail(s, sep, r);
      if r < 0 then -1 else r + 1
  }

  predicate Contains(s: string, sep: string) {
    Index(s, sep) >= 0
  }

  // ---- The printer ----

  function Items(list: seq<string>): string {
    if list == [] then "" else Items(list[..|list| - 1]) + "  - " + list[|list| - 1] + "\n"
  }

  function Header(s: Skill): string {
    "name: " + s.name + "\n" + ("description: " + s.description + "\n") + ("tags:\n" + Items(s.tags)) +
    if s.tools == [] then "" else "tools:\n" + Items(s.tools)
  }

  function Printed(header: string, content: string): string {
    "---\n" + header + "---\n" + content
  }

  /** `formatSkillContent` */
  method FormatSkillContent(s: Skill) returns (r: string)
    ensures r == Printed(Header(s), s.content)
  {
    var header := "name: " + s.name + "\n" + ("description: " + s.description + "\n");
    var tags := WriteItems("tags:\n", s.tags);
    header := header + tags;
    if |s.tools| > 0 {
      var tools := WriteItems("tools:\n", s.tools);
      header := header + tools;
    } else {
      assert header == header + "";
    }
    r := "---\n" + header + "---\n" + s.content;
  }

  method WriteItems(title: string, list: seq<string>) returns (r: string)
    ensures r == title + Items(list)
  {
    r := title;
    var n := 0;
    assert title + Items([]) == title;
    while n < |list|
      invariant 0 <= n <= |list| && r == title + Items(list[..n])
    {
      assert list[..n + 1][..n] == list[..n];
      assert title + Items(list[..n]) + "  - " + list[n] + "\n" == title + (Items(list[..n]) + "  - " + list[n] + "\n");
      r := r + "  - " + list[n] + "\n";
      n := n + 1;
    }
    assert list[..n] == list;
  }

  // ---- The parsers ----

  /** `FrontmatterParser.Parse` of the registry: cut at the first two `---` of the trimmed
      text; header and body come back trimmed. */
  function ParseTrimmed(content: string): Option<(string, string)> {
    var s := TrimSpace(content);
    if !("---" <= s) then None
    else
      var rest := s[3..];
      var n := Index(rest, "---");
      if n < 0 then None
      else
        var frontmatter := TrimSpace(rest[..n]);
        if frontmatter == "" then None else Some((frontmatter, TrimSpace(rest[n + 3..])))
  }

  function TrimFeeds(s: string): string {
    if s != "" && s[0] == '\n' then TrimFeeds(s[1..]) else s
  }

  /** `extractFrontmatter`: from the first line to the first later line that is `---`. */
  function ExtractFrontmatter(content: string): Option<(string, string)> {
    if !("---\n" <= content) then None
    else
      var end := Index(content, "\n---\n");
      if end < 3 then None else Some((content[4..end + 1], TrimFeeds(content[end + 5..])))
  }

  // ---- Trimming ----

  lemma {:induction false} TrimRightIsPrefix(s: string)
    ensures TrimRight(s) <= s && forall i :: |TrimRight(s)| <= i < |s| ==> IsSpace(s[i])
    ensures TrimRight(s) != "" ==> !IsSpace(TrimRight(s)[|TrimRight(s)| - 1])
  {
    if s != "" && IsSpace(s[|s| - 1]) {
      TrimRightIsPrefix(s[..|s| - 1]);
    }
  }

  lemma {:induction false} TrimRightAppend(a: string, b: string)
    ensures TrimRight(a + b) == if TrimRight(b) == "" then TrimRight(a) else a + TrimRight(b)
  {
    if b == "" {
      assert a + b == a;
    } else if IsSpace(b[|b| - 1]) {
      assert (a + b)[..|a + b| - 1] == a + b[..|b| - 1];
      TrimRightAppend(a, b[..|b| - 1]);
    }
  }

  lemma {:induction false} TrimLeftOfFeeds(s: string)
    ensures TrimLeft(TrimFeeds(s)) == TrimLeft(s)
  {
    if s != "" && s[0] == '\n' {
      TrimLeftOfFeeds(s[1..]);
      assert IsSpace('\n');
    }
  }

  lemma {:induction false} TrimLeftOfTrimRight(s: string)
    ensures TrimSpace(TrimRight(s)) == TrimSpace(s)
  {
    TrimBothWays(s);
    TrimBothWays(TrimRight(s));
    TrimRightTwice(s);
  }

  lemma {:induction false} TrimBothWays(s: string)
    ensures TrimSpace(s) == TrimLeft(TrimRight(s))
  {
    if s != "" && IsSpace(s[0]) {
      TrimBothWays(s[1..]);
      TrimRightAppend([s[0]], s[1..]);
      assert [s[0]] + s[1..] == s;
      assert TrimRight([s[0]]) == "" by { assert [s[0]][..0] == ""; }
      assert TrimRight(s[1..]) != "" ==> ([s[0]] + TrimRight(s[1..]))[1..] == TrimRight(s[1..]);
    } else {
      TrimRightIsPrefix(s);
    }
  }

  lemma TrimRightTwice(s: string)
    ensures TrimRight(TrimRight(s)) == TrimRight(s)
  {
    TrimRightIsPrefix(s);
  }

  // ---- What the first parser recovers ----

  /** A header as the printer writes it: visible at the start, ending in a line feed. */
  predicate HeaderShape(h: string) {
    |h| >= 2 && !IsSpace(h[0]) && h[|h| - 1] == '\n'
  }

  lemma TrimmedPrinted(h: string, c: string)
    requires HeaderShape(h)
    ensures TrimSpace(Printed(h, c)) == "---" + ("\n" + h + "---" + TrimRight("\n" + c))
  {
    var a, b := "---\n" + h + "---", "\n" + c;
    assert Printed(h, c) == a + b;
    assert TrimLeft(a + b) == a + b by { assert (a + b)[0] == '-'; }
    TrimRightAppend(a, b);
    assert a[|a| - 1] == '-' && !IsSpace('-');
    assert TrimRight(a) == a;
    assert a == "---" + ("\n" + h + "---");
    assert a + TrimRight(b) == "---" + ("\n" + h + "---" + TrimRight(b));
    assert a + "" == a;
  }

  lemma IndexUnique(s: string, sep: string, n: int)
    requires OccursAt(s, sep, n) && forall i :: OccursAt(s, sep, i) ==> n <= i
    ensures Index(s, sep) == n
  {
    hide OccursAt;
    OccursFrom(s, sep, n);
  }

  lemma SeparatorCharacters(s: string, sep: string, n: int)
    requires OccursAt(s, sep, n)
    ensures forall k :: n <= k < n + |sep| ==> s[k] == sep[k - n] && sep[k - n] in sep
  {
    var w := s[n..n + |sep|];
    assert forall k :: n <= k < n + |sep| ==> s[k] == w[k - n];
  }

  /** An occurrence that lies within the middle part. */
  lemma OccursInside(a: string, m: string, b: string, sep: string, i: int)
    requires |a| <= i && i + |sep| <= |a| + |m|
    ensures OccursAt(a + m + b, sep, i) <==> OccursAt(m, sep, i - |a|)
  {
    assert (a + m + b)[i..i + |sep|] == m[i - |a|..i - |a| + |sep|];
  }

  lemma ContainsMeans(s: string, sep: string)
    ensures Contains(s, sep) <==> exists i :: OccursAt(s, sep, i)
    ensures Contains(s, sep) ==> OccursAt(s, sep, Index(s, sep))
  {
    hide OccursAt;
  }

  /** The closing dashes of a printed header are the first ones, unless the header has some. */
  lemma FirstDashes(h: string, tail: string)
    requires HeaderShape(h)
    ensures var n := Index("\n" + h + "---" + tail, "---");
      if Contains(h, "---") then n == Index(h, "---") + 1 else n == |h| + 1
  {
    hide Index;
    var s, rest := "\n" + h + "---" + tail, "---" + tail;
    assert s == "\n" + h + rest == ("\n" + h) + "---" + tail;
    OccursInside("\n" + h, "---", tail, "---", |h| + 1);
    assert OccursAt("---", "---", 0);
    forall i | OccursAt(s, "---", i) && i < |h| + 1 ensures 1 <= i && OccursAt(h, "---", i - 1) {
      SeparatorCharacters(s, "---", i);
      assert s[|h|] == '\n' && s[0] == '\n';
      OccursInside("\n", h, rest, "---", i);
    }
    ContainsMeans(h, "---");
    if Contains(h, "---") {
      OccursInside("\n", h, rest, "---", Index(h, "---") + 1);
      IndexUnique(s, "---", Index(h, "---") + 1);
    } else {
      IndexUnique(s, "---", |h| + 1);
    }
  }

  lemma TrimHeader(h: string)
    requires HeaderShape(h)
    ensures TrimSpace("\n" + h) == TrimRight(h) != ""
  {
    assert IsSpace('\n') && ("\n" + h)[1..] == h;
    assert TrimLeft("\n" + h) == TrimLeft(h) == h;
    TrimRightIsPrefix(h);
  }

  lemma TrimBody(c: string)
    ensures TrimSpace(TrimRight("\n" + c)) == TrimSpace(c)
  {
    TrimLeftOfTrimRight("\n" + c);
    assert ("\n" + c)[1..] == c && IsSpace('\n');
  }

  /** The registry's parser recovers a printed header and body, trimmed, exactly when the
      header holds no `---`. */
  lemma ParseTrimmedRecovers(h: string, c: string)
    requires HeaderShape(h)
    ensures ParseTrimmed(Printed(h, c)) == Some((TrimSpace(h), TrimSpace(c))) <==> !Contains(h, "---")
  {
    hide Index, TrimRight, TrimLeft;
    var s, tail := TrimSpace(Printed(h, c)), TrimRight("\n" + c);
    TrimmedPrinted(h, c);
    var rest := "\n" + h + "---" + tail;
    assert s[3..] == rest;
    FirstDashes(h, tail);
    HeaderTrims(h);
    TrimHeader(h);
    if Contains(h, "---") {
      CutHeaderDiffers(h, Index(h, "---"));
      assert rest[..Index(h, "---") + 1] == "\n" + h[..Index(h, "---")];
    } else {
      assert rest[..|h| + 1] == "\n" + h && rest[|h| + 4..] == tail;
      TrimBody(c);
    }
  }

  lemma HeaderTrims(h: string)
    requires HeaderShape(h)
    ensures TrimSpace(h) == TrimRight(h)
  {
  }

  /** A name that is itself a rule is lost to the registry's parser. */
  lemma DashedNameIsLost(c: string)
    ensures ParseTrimmed(Printed("name: ---\n", c)) != Some((TrimSpace("name: ---\n"), TrimSpace(c)))
  {
    hide TrimSpace, Index;
    var h := "name: ---\n";
    assert h[6..9] == "---" && OccursAt(h, "---", 6);
    ContainsMeans(h, "---");
    assert !IsSpace('n');
    ParseTrimmedRecovers(h, c);
  }

  /** What comes before dashes inside the header is not all of it. */
  lemma CutHeaderDiffers(h: string, k: int)
    requires HeaderShape(h) && OccursAt(h, "---", k)
    ensures TrimSpace("\n" + h[..k]) != TrimRight(h)
  {
    assert h[k] == h[k..k + 3][0] == '-' && !IsSpace('-');
    TrimRightIsPrefix(h);
    assert |TrimRight(h)| > k;
    assert ("\n" + h[..k])[1..] == h[..k] && IsSpace('\n');
    TrimLeftShrinks(h[..k]);
    TrimRightIsPrefix(TrimLeft(h[..k]));
  }

  // ---- What the second parser recovers ----

  lemma FirstRule(h: string, c: string)
    requires HeaderShape(h)
    ensures var n := Index(Printed(h, c), "\n---\n");
      if Contains("\n" + h, "\n---\n") then 3 <= n < |h| + 3 else n == |h| + 3
  {
    hide Index;
    var s, m, rest := Printed(h, c), "\n" + h, "---\n" + c;
    var body := h[..|h| - 1];
    assert s == "---" + m + rest;
    assert s == ("---\n" + body) + "\n---\n" + c by { assert h == body + "\n"; }
    OccursInside("---\n" + body, "\n---\n", c, "\n---\n", |h| + 3);
    assert OccursAt("\n---\n", "\n---\n", 0);
    forall i | OccursAt(s, "\n---\n", i) && i < |h| + 3 ensures 3 <= i && OccursAt(m, "\n---\n", i - 3) {
      RuleInside(h, c, i);
      OccursInside("---", m, rest, "\n---\n", i);
    }
    ContainsMeans(m, "\n---\n");
    if Contains(m, "\n---\n") {
      var k := Index(m, "\n---\n");
      OccursInside("---", m, rest, "\n---\n", k + 3);
      assert k + 5 <= |m|;
    } else {
      IndexUnique(s, "\n---\n", |h| + 3);
    }
  }

  lemma RuleInside(h: string, c: string, i: int)
    requires HeaderShape(h) && OccursAt(Printed(h, c), "\n---\n", i) && i < |h| + 3
    ensures 3 <= i && i + 5 <= |h| + 4
  {
    var s := Printed(h, c);
    SeparatorCharacters(s, "\n---\n", i);
    assert s[0] == '-' && s[1] == '-' && s[2] == '-' && s[|h| + 3] == '\n';
    assert s[i] == '\n' && s[i + 1] == '-' && s[i + 2] == '-' && s[i + 3] == '-';
  }

  /** The YAML parser recovers a printed header to the letter, and the body but for leading
      line feeds, exactly when no line of the header is `---`. */
  lemma ExtractFrontmatterRecovers(h: string, c: string)
    requires HeaderShape(h)
    ensures ExtractFrontmatter(Printed(h, c)) == Some((h, TrimFeeds(c))) <==> !Contains("\n" + h, "\n---\n")
  {
    hide Index, TrimFeeds;
    var s := Printed(h, c);
    FirstRule(h, c);
    var end := Index(s, "\n---\n");
    if !Contains("\n" + h, "\n---\n") {
      assert s[4..end + 1] == h && s[end + 5..] == c;
    } else {
      assert |s[4..end + 1]| < |h|;
    }
  }

  /** A header line that is a rule ends the header for the YAML parser. */
  lemma RuleLineIsLost(c: string)
    ensures ExtractFrontmatter(Printed("a: b\n---\nc: d\n", c)) != Some(("a: b\n---\nc: d\n", TrimFeeds(c)))
  {
    hide TrimFeeds, Index;
    var h := "a: b\n---\nc: d\n";
    assert ("\n" + h)[5..10] == "\n---\n" && OccursAt("\n" + h, "\n---\n", 5);
    ContainsMeans("\n" + h, "\n---\n");
    assert !IsSpace('a');
    ExtractFrontmatterRecovers(h, c);
  }

  // ---- Both ----

  /** A separator does not reach over a character that it does not hold. */
  lemma OccursOnOneSide(a: string, c: char, b: string, sep: string, n: int)
    requires OccursAt(a + [c] + b, sep, n) && c !in sep
    ensures OccursAt(a, sep, n) || OccursAt(b, sep, n - |a| - 1)
  {
    var s := a + [c] + b;
    SeparatorCharacters(s, sep, n);
    assert s[|a|] == c;
    if n + |sep| <= |a| {
      assert a[n..n + |sep|] == sep;
    } else if n > |a| {
      assert b[n - |a| - 1..n - |a| - 1 + |sep|] == s[n..n + |sep|];
    }
  }

  lemma NoSeparatorIn(a: string, c: char, b: string, sep: string)
    requires c !in sep && !Contains(a, sep) && !Contains(b, sep)
    ensures !Contains(a + [c] + b, sep)
  {
    hide Index, OccursAt;
    var n := Index(a + [c] + b, sep);
    if n >= 0 {
      OccursOnOneSide(a, c, b, sep, n);
    }
  }

  lemma ShortHasNone(s: string)
    requires |s| < 3
    ensures !Contains(s, "---")
  {
  }

  lemma DashesAreCharacters(s: string)
    ensures Contains(s, "---") ==> '-' in s
  {
    hide Index;
    if Contains(s, "---") {
      SeparatorCharacters(s, "---", Index(s, "---"));
      assert s[Index(s, "---")] in s;
    }
  }

  lemma LineHasNone(title: string, text: string)
    requires '-' !in title && title != "" && !Contains(text, "---")
    ensures !Contains(title + text, "---")
  {
    hide Index;
    var m := |title| - 1;
    assert title + text == title[..m] + [title[m]] + text;
    assert title[m] in title;
    DashesAreCharacters(title[..m]);
    assert forall c :: c in title[..m] ==> c in title;
    NoSeparatorIn(title[..m], title[m], text, "---");
  }

  lemma {:induction false} ItemsHaveNone(list: seq<string>)
    requires forall x :: x in list ==> !Contains(x, "---")
    ensures !Contains(Items(list), "---")
  {
    hide Index;
    if list == [] {
      ShortHasNone("");
    } else {
      var before, x := Items(list[..|list| - 1]), list[|list| - 1];
      ItemsHaveNone(list[..|list| - 1]);
      ShortHasNone("-");
      assert !Contains(before + [' '] + "", "---") by { ShortHasNone(""); NoSeparatorIn(before, ' ', "", "---"); }
      assert before + [' '] + "" == before + " ";
      NoSeparatorIn(before + " ", ' ', "-", "---");
      NoSeparatorIn(before + " " + [' '] + "-", ' ', x, "---");
      ShortHasNone("");
      NoSeparatorIn(before + " " + [' '] + "-" + [' '] + x, '\n', "", "---");
      assert Items(list) == before + " " + [' '] + "-" + [' '] + x + ['\n'] + "";
    }
  }

  /** Fields without `---` give a header without `---`. */
  lemma HeaderHasNone(s: Skill)
    requires !Contains(s.name, "---") && !Contains(s.description, "---")
    requires forall x :: x in s.tags || x in s.tools ==> !Contains(x, "---")
    ensures !Contains(Header(s), "---") && HeaderShape(Header(s))
  {
    hide Index, Items, Contains;
    LineHasNone("name: ", s.name);
    LineHasNone("description: ", s.description);
    NoSeparatorIn("name: " + s.name, '\n', "description: " + s.description, "---");
    var names := "name: " + s.name + ['\n'] + ("description: " + s.description);
    ItemsHaveNone(s.tags);
    ItemsHaveNone(s.tools);
    LineHasNone("tags:\n", Items(s.tags));
    NoSeparatorIn(names, '\n', "tags:\n" + Items(s.tags), "---");
    var tagged := names + ['\n'] + ("tags:\n" + Items(s.tags));
    ItemsEnd("tags:\n", s.tags);
    HeaderEnds(s);
    if s.tools == [] {
      assert Header(s) == tagged;
    } else {
      LineHasNone("ools:\n", Items(s.tools));
      NoSeparatorIn(tagged, 't', "ools:\n" + Items(s.tools), "---");
      assert Header(s) == tagged + ['t'] + ("ools:\n" + Items(s.tools));
    }
  }

  lemma ItemsEnd(title: string, list: seq<string>)
    requires title != "" && title[|title| - 1] == '\n'
    ensures var t := title + Items(list); t[|t| - 1] == '\n'
  {
  }

  lemma HeaderEnds(s: Skill)
    ensures HeaderShape(Header(s))
  {
    hide Items;
    ItemsEnd("tags:\n", s.tags);
    ItemsEnd("tools:\n", s.tools);
    assert Header(s)[0] == 'n';
  }

  lemma RuleHasDashes(h: string)
    ensures Contains("\n" + h, "\n---\n") ==> Contains(h, "---")
  {
    hide Index;
    var n := Index("\n" + h, "\n---\n");
    if n >= 0 {
      SeparatorCharacters("\n" + h, "\n---\n", n);
      assert h[n] == ("\n" + h)[n + 1] == '-' && h[n + 1] == ("\n" + h)[n + 2] == '-' &&
        h[n + 2] == ("\n" + h)[n + 3] == '-';
      assert h[n..n + 3] == [h[n], h[n + 1], h[n + 2]];
      assert OccursAt(h, "---", n);
    }
  }

  /** What is printed from fields without `---` is recovered by both parsers, and they agree
      with each other up to trimming. */
  lemma PrintedSkillIsParsed(s: Skill)
    requires !Contains(s.name, "---") && !Contains(s.description, "---")
    requires forall x :: x in s.tags || x in s.tools ==> !Contains(x, "---")
    ensures ExtractFrontmatter(Printed(Header(s), s.content)) == Some((Header(s), TrimFeeds(s.content)))
    ensures ParseTrimmed(Printed(Header(s), s.content)) == Some((TrimSpace(Header(s)), TrimSpace(TrimFeeds(s.content))))
  {
    hide Contains, Header, Printed, ParseTrimmed, ExtractFrontmatter, HeaderShape, TrimFeeds;
    HeaderHasNone(s);
    RuleHasDashes(Header(s));
    ExtractFrontmatterRecovers(Header(s), s.content);
    ParseTrimmedRecovers(Header(s), s.content);
    TrimLeftOfFeeds(s.content);
  }

  // ---- What the printer writes and the parsers read, of any text ----

  function ItemLines(list: seq<string>): seq<string> {
    seq(|list|, i requires 0 <= i < |list| => "  - " + list[i])
  }

  lemma {:induction false} ItemsAreLines(list: seq<string>)
    ensures Items(list) == TextLines.Terminated(ItemLines(list))
  {
    if list != [] {
      var m := |list| - 1;
      ItemsAreLines(list[..m]);
      assert ItemLines(list) == ItemLines(list[..m]) + ["  - " + list[m]];
      TextLines.TerminatedSnoc(ItemLines(list[..m]), "  - " + list[m]);
    }
  }

  lemma {:induction false} TerminatedAppend(a: seq<string>, b: seq<string>)
    ensures TextLines.Terminated(a + b) == TextLines.Terminated(a) + TextLines.Terminated(b)
  {
    if a == [] {
      assert a + b == b;
    } else {
      TerminatedAppend(a[1..], b);
      assert (a + b)[0] == a[0] && (a + b)[1..] == a[1..] + b;
    }
  }

  /** The header has a line each for name and description, and then one for each tag and, if
      there are any, each tool, in order. */
  lemma HeaderIsLines(s: Skill)
    ensures Header(s) ==
            TextLines.Terminated(
              ["name: " + s.name, "description: " + s.description] + ["tags:"] + ItemLines(s.tags) +
              if s.tools == [] then [] else ["tools:"] + ItemLines(s.tools))
  {
    hide Items, ItemLines;
    var fields, tags := ["name: " + s.name, "description: " + s.description], ["tags:"] + ItemLines(s.tags);
    var tools := if s.tools == [] then [] else ["tools:"] + ItemLines(s.tools);
    ItemsAreLines(s.tags);
    ItemsAreLines(s.tools);
    TerminatedAppend(["tags:"], ItemLines(s.tags));
    TerminatedAppend(["tools:"], ItemLines(s.tools));
    TerminatedAppend(fields, tags);
    TerminatedAppend(fields + tags, tools);
    assert fields + ["tags:"] + ItemLines(s.tags) == fields + tags;
    FieldLines(s);
  }

  lemma FieldLines(s: Skill)
    ensures TextLines.Terminated(["name: " + s.name, "description: " + s.description]) ==
            "name: " + s.name + "\n" + ("description: " + s.description + "\n")
    ensures TextLines.Terminated(["tags:"]) == "tags:\n" && TextLines.Terminated(["tools:"]) == "tools:\n"
  {
    var name, description := "name: " + s.name, "description: " + s.description;
    TerminatedOne(name);
    TerminatedOne(description);
    TerminatedOne("tags:");
    TerminatedOne("tools:");
    TerminatedAppend([name], [description]);
    assert [name] + [description] == [name, description];
  }

  lemma TerminatedOne(line: string)
    ensures TextLines.Terminated([line]) == line + "\n"
  {
    TextLines.TerminatedSnoc([], line);
    assert [] + [line] == [line] && "" + line + "\n" == line + "\n";
  }

  /** Only line feeds are taken from the front, and all of them. */
  lemma {:induction false} TrimFeedsMeans(s: string) returns (n: nat)
    ensures n <= |s| && TrimFeeds(s) == s[n..] && forall i :: 0 <= i < n ==> s[i] == '\n'
    ensures n < |s| ==> s[n] != '\n'
  {
    n := 0;
    if s != "" && s[0] == '\n' {
      var m := TrimFeedsMeans(s[1..]);
      assert s[1..][m..] == s[m + 1..];
      assert forall i :: 1 <= i < m + 1 ==> s[i] == s[1..][i - 1];
      n := m + 1;
    }
  }

  /** The registry's parser accepts a text exactly when, trimmed, it starts with `---`, has
      another `---` further on, and something visible between the first two. */
  lemma ParseTrimmedMeans(content: string, h: string, b: string)
    requires TrimSpace(content) == "---" + (h + "---" + b)
    requires forall i :: 0 <= i < |h| ==> !OccursAt(h + "---" + b, "---", i)
    ensures ParseTrimmed(content) == if TrimSpace(h) == "" then None else Some((TrimSpace(h), TrimSpace(b)))
  {
    hide TrimSpace, Index;
    var rest := h + "---" + b;
    assert ("---" + rest)[3..] == rest && rest[|h|..|h| + 3] == "---" && rest[..|h|] == h && rest[|h| + 3..] == b;
    IndexUnique(rest, "---", |h|);
  }

  lemma ParseTrimmedRefuses(content: string)
    requires !("---" <= TrimSpace(content)) || forall i :: !OccursAt(TrimSpace(content)[3..], "---", i)
    ensures ParseTrimmed(content) == None
  {
    hide TrimSpace, OccursAt;
  }

  /** The YAML parser accepts a text exactly when it starts with a rule line and has another. */
  lemma ExtractFrontmatterMeans(content: string, h: string, b: string)
    requires content == "---" + ("\n" + h + "---\n" + b) && (h != "" ==> h[|h| - 1] == '\n')
    requires forall i :: 0 <= i < |h| ==> !OccursAt("\n" + h + "---\n" + b, "\n---\n", i)
    ensures ExtractFrontmatter(content) == Some((h, TrimFeeds(b)))
  {
    hide Index, TrimFeeds, OccursAt;
    var n, lines := |h| + 3, "\n" + h + "---\n" + b;
    RuleAtEnd(content, h, b);
    forall i | OccursAt(content, "\n---\n", i) ensures n <= i {
      RuleFrom(content, lines, i);
    }
    IndexUnique(content, "\n---\n", n);
  }

  lemma RuleAtEnd(content: string, h: string, b: string)
    requires content == "---" + ("\n" + h + "---\n" + b) && (h != "" ==> h[|h| - 1] == '\n')
    ensures var n := |h| + 3;
      OccursAt(content, "\n---\n", n) && "---\n" <= content && content[4..n + 1] == h && content[n + 5..] == b
  {
    var n := |h| + 3;
    assert content[n..n + 5] == "\n---\n" && content[..4] == "---\n";
  }

  /** A rule line after the first is one of the text behind the first dashes. */
  lemma RuleFrom(content: string, lines: string, i: int)
    requires content == "---" + lines && OccursAt(content, "\n---\n", i)
    ensures 3 <= i && OccursAt(lines, "\n---\n", i - 3)
  {
    SeparatorCharacters(content, "\n---\n", i);
    assert content[0] == '-' && content[1] == '-' && content[2] == '-';
    assert content == "---" + lines + "";
    OccursInside("---", lines, "", "\n---\n", i);
  }

  lemma ExtractFrontmatterRefuses(content: string)
    requires !("---\n" <= content) || forall i :: !OccursAt(content, "\n---\n", i)
    ensures ExtractFrontmatter(content) == None
  {
    hide OccursAt;
  }
}
