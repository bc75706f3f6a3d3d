/** Session transcripts: append, rotate, read back and reset. internal/store/worker.go.
    A write to a file happens as a whole or not at all; a file is a text. */
module Transcript {
  import opened Wrappers
  import opened Strings
  import opened TextLines

  // ---- Reading ----

  /** What `readTranscript` makes of the content of a file. */
  function ReadBack(text: string, limit: int): (lines: seq<string>)
  {
    var lines := SplitLines(TrimSpace(text));
    if lines == [""] then []
    else if limit > 0 && |lines| > limit then lines[|lines| - limit..]
    else lines
  }

  /** The first line starts and the last line ends with something that is not white space. */
  predicate EndsVisible(lines: seq<string>) {
    lines != [] ==> Join(lines) != "" && Trimmed(Join(lines))
  }

  lemma VisibleLines(lines: seq<string>)
    requires lines != []
    ensures EndsVisible(lines) <==>
            lines[0] != "" && !IsSpace(lines[0][0]) && lines[|lines| - 1] != "" &&
              !IsSpace(lines[|lines| - 1][|lines[|lines| - 1]| - 1])
  {
    JoinEnds(lines);
  }

  lemma {:induction false} JoinEnds(lines: seq<string>)
    requires lines != []
    ensures var all, last := Join(lines), lines[|lines| - 1];
      && (all == "" <==> lines == [""])
      && (all != "" ==> all[0] == (if lines[0] != "" then lines[0][0] else '\n'))
      && (all != "" ==> all[|all| - 1] == (if last != "" then last[|last| - 1] else '\n'))
  {
    if |lines| > 1 {
      JoinEnds(lines[1..]);
      assert lines[1..][|lines| - 2] == lines[|lines| - 1];
    }
  }

  lemma TrimLastFeed(s: string)
    ensures TrimSpace(s + "\n") == TrimSpace(s)
  {
    TrimLeftFeed(s);
    var t := TrimLeft(s);
    if TrimLeft(s + "\n") != "" {
      assert (t + "\n")[..|t|] == t;
    }
  }

  lemma {:induction false} TrimLeftFeed(s: string)
    ensures TrimLeft(s + "\n") == if TrimLeft(s) == "" then "" else TrimLeft(s) + "\n"
  {
    if s == "" {
      assert (s + "\n")[1..] == "" && IsSpace('\n');
    } else if IsSpace(s[0]) {
      assert (s + "\n")[1..] == s[1..] + "\n";
      TrimLeftFeed(s[1..]);
    }
  }

  /** Lines written one after the other are read back, all of them, exactly when the first
      starts and the last ends visibly. */
  lemma ReadUndoesWrite(lines: seq<string>)
    requires forall line :: line in lines ==> NoLF(line)
    ensures ReadBack(Terminated(lines), 0) == lines <==> EndsVisible(lines)
  {
    hide SplitLines, Join, TrimSpace, NoLF;
    if lines == [] {
      EmptyFile();
    } else {
      var all := Join(lines);
      TerminatedIsJoined(lines);
      TrimLastFeed(all);
      SplitOfJoin(lines);
      JoinOfSplit(TrimSpace(all));
      if EndsVisible(lines) {
        TrimmedIsFixed(all);
        OnlyEmptyLine(lines);
      } else {
        TrimSpaceTrims(all);
        OnlyEmptyLine([""]);
      }
    }
  }

  lemma EmptyFile()
    ensures ReadBack(Terminated([]), 0) == []
  {
    assert SplitLines("") == [""];
  }

  lemma OnlyEmptyLine(lines: seq<string>)
    ensures lines == [""] ==> Join(lines) == ""
  {
  }

  /** A blank in front of the first line is lost, and so is an empty line. */
  lemma BlankEndsAreLost()
    ensures ReadBack(Terminated([" a"]), 0) != [" a"] && ReadBack(Terminated([""]), 0) == []
  {
    assert Join([" a"]) == " a" && IsSpace(' ');
    assert NoLF(" a") && NoLF("");
    ReadUndoesWrite([" a"]);
    assert Terminated([""]) == "\n" && IsSpace('\n') && "\n"[1..] == "";
    assert SplitLines("") == [""];
  }

  /** Under a limit the last lines are read back. */
  lemma ReadLastLines(lines: seq<string>, limit: int)
    requires (forall line :: line in lines ==> NoLF(line)) && EndsVisible(lines)
    ensures ReadBack(Terminated(lines), limit) ==
            if limit > 0 && |lines| > limit then lines[|lines| - limit..] else lines
  {
    hide SplitLines, TrimSpace, Join, NoLF, Terminated;
    ReadUndoesWrite(lines);
  }

  // ---- The store worker ----

  /** Text that left a transcript, by a rotation or by a reset. */
  datatype Piece = Rotated(stamp: string, text: string) | Removed(text: string)

  function Current(files: map<string, string>, session: string): string {
    if session in files then files[session] else ""
  }

  function Text(pieces: seq<Piece>): string {
    if pieces == [] then "" else Text(pieces[..|pieces| - 1]) + pieces[|pieces| - 1].text
  }

  type Backups = map<(string, string), string>

  /** A rotation with the latest use of its time stamp. */
  ghost predicate LastUse(pieces: seq<Piece>, i: int) {
    0 <= i < |pieces| && pieces[i].Rotated? &&
    forall j :: i < j < |pieces| && pieces[j].Rotated? ==> pieces[j].stamp != pieces[i].stamp
  }

  lemma LastUseBefore(pieces: seq<Piece>, p: Piece, i: int)
    requires LastUse(pieces + [p], i) && i < |pieces|
    ensures LastUse(pieces, i) && (p.Rotated? ==> p.stamp != pieces[i].stamp)
  {
    var more := pieces + [p];
    assert more[|pieces|] == p && more[i] == pieces[i];
    forall j | i < j < |pieces| && pieces[j].Rotated? ensures pieces[j].stamp != pieces[i].stamp {
      assert more[j] == pieces[j];
    }
  }

  /** A rotation is still in its backup unless a later one used the same time stamp. */
  ghost predicate BackedUp(backups: Backups, session: string, pieces: seq<Piece>) {
    forall i :: LastUse(pieces, i) ==>
      (session, pieces[i].stamp) in backups && backups[(session, pieces[i].stamp)] == pieces[i].text
  }

  /** All that was ever written to a transcript, what became of it, and the lines that are
      in the file now. */
  datatype Record = Record(written: string, pieces: seq<Piece>, recent: seq<string>)

  const Blank := Record("", [], [])

  function Of(records: map<string, Record>, session: string): Record {
    if session in records then records[session] else Blank
  }

  ghost predicate Accounted(files: map<string, string>, backups: Backups, session: string, r: Record) {
    && Terminated(r.recent) == Current(files, session)
    && r.written == Text(r.pieces) + Current(files, session)
    && BackedUp(backups, session, r.pieces)
  }

  class Worker {
    const transcriptRotateMaxBytes: int
    var files: map<string, string>
    var backups: Backups
    var sessionIndex: set<string>
    ghost var records: map<string, Record>

    ghost predicate Valid()
      reads this
    {
      forall s :: Accounted(files, backups, s, Of(records, s))
    }

    constructor (maxBytes: int)
      ensures Valid() && transcriptRotateMaxBytes == maxBytes && files == map[] && backups == map[] && records == map[]
    {
      transcriptRotateMaxBytes := maxBytes;
      files, backups, sessionIndex, records := map[], map[], {}, map[];
    }

    /** `checkAndRotate`: `renamed` and `created` tell which file operations succeed. */
    method CheckAndRotate(session: string, stamp: string, renamed: bool, created: bool) returns (failed: bool)
      requires Valid()
      modifies this`files, this`backups, this`records
      ensures Valid()
      ensures var due := session in old(files) && |old(files)[session]| >= transcriptRotateMaxBytes;
        && failed == (due && !(renamed && created))
        && if due && renamed then
             && files == (if created then old(files)[session := ""] else old(files) - {session})
             && backups == old(backups)[(session, stamp) := old(files)[session]]
             && records == old(records)[session := Rotate(Of(old(records), session), stamp, old(files)[session])]
           else files == old(files) && backups == old(backups) && records == old(records)
    {
      hide Accounted;
      if session !in files {
        return false;
      }
      if |files[session]| < transcriptRotateMaxBytes {
        return false;
      }
      if !renamed {
        return true;
      }
      ghost var before, kept, noted := files, backups, records;
      backups := backups[(session, stamp) := files[session]];
      files := files - {session};
      records := records[session := Rotate(Of(records, session), stamp, before[session])];
      if created {
        files := files[session := ""];
      }
      RotateKeeps(before, kept, session, Of(noted, session), stamp, files);
      forall s | s != session ensures Accounted(files, backups, s, Of(records, s)) {
        OtherKeeps(before, kept, files, backups, session, stamp, s, Of(noted, s));
      }
      failed := !created;
    }

    /** `appendTranscript`: a failed rotation is only reported; `opened` and `synced` tell
        whether the write happens and whether it is then confirmed. */
    method AppendTranscript(session: string, data: string, stamp: string, renamed: bool, created: bool, appended: bool,
                            synced: bool)
      returns (failed: bool)
      requires Valid()
      modifies this`files, this`backups, this`records
      ensures Valid() && failed == !(appended && synced)
      ensures var due := renamed && session in old(files) && |old(files)[session]| >= transcriptRotateMaxBytes;
        var r := Of(old(records), session);
        && backups == (if due then old(backups)[(session, stamp) := old(files)[session]] else old(backups))
        && Current(files, session) ==
           (if due then "" else Current(old(files), session)) + (if appended then data + "\n" else "")
        && Of(records, session) == Record(r.written + (if appended then data + "\n" else ""),
                                          if due then r.pieces + [Rotated(stamp, old(files)[session])] else r.pieces,
                                          (if due then [] else r.recent) + if appended then [data] else [])
      ensures appended ==> session in files
      ensures appended && renamed && transcriptRotateMaxBytes > 0 ==>
        |Current(files, session)| < transcriptRotateMaxBytes + |data + "\n"|
      ensures forall s :: s != session ==>
              Of(records, s) == Of(old(records), s) && Current(files, s) == Current(old(files), s)
    {
      hide Accounted;
      var _ := CheckAndRotate(session, stamp, renamed, created);
      if !appended {
        return true;
      }
      ghost var r, before, noted := Of(records, session), files, records;
      files := files[session := Current(files, session) + data + "\n"];
      records := records[session := r.(written := r.written + data + "\n", recent := r.recent + [data])];
      AppendKeeps(before, backups, session, r, data);
      forall s | s != session ensures Accounted(files, backups, s, Of(records, s)) {
        SameFile(before, files, backups, s, Of(noted, s));
      }
      assert r.written + data + "\n" == r.written + (data + "\n");
      failed := !synced;
    }

    /** `readTranscript` */
    method ReadTranscript(session: string, limit: int, readable: bool) returns (lines: Option<seq<string>>)
      requires Valid()
      ensures session !in files ==> lines == Some([])
      ensures session in files && !readable ==> lines == None
      ensures session in files && readable ==> lines == Some(ReadBack(files[session], limit))
      ensures readable && EndsVisible(Of(records, session).recent) &&
              (forall line :: line in Of(records, session).recent ==> NoLF(line)) ==>
        var recent := Of(records, session).recent;
        lines == Some(if limit > 0 && |recent| > limit then recent[|recent| - limit..] else recent)
    {
      hide EndsVisible, NoLF, SplitLines, Join, TrimSpace, Terminated, ReadBack;
      ghost var recent := Of(records, session).recent;
      assert Accounted(files, backups, session, Of(records, session));
      if EndsVisible(recent) && (forall line :: line in recent ==> NoLF(line)) {
        ReadLastLines(recent, limit);
      }
      if session !in files {
        NothingWritten(recent);
        return Some([]);
      }
      if !readable {
        return None;
      }
      lines := Some(ReadBack(files[session], limit));
    }

    /** `resetSession` */
    method ResetSession(session: string, removed: bool, saved: bool) returns (failed: bool)
      requires Valid()
      modifies this`files, this`sessionIndex, this`records
      ensures Valid()
      ensures session in old(files) && !removed ==>
              failed && files == old(files) && records == old(records) && sessionIndex == old(sessionIndex)
      ensures session !in old(files) || removed ==>
        && failed == !saved && files == old(files) - {session} && sessionIndex == old(sessionIndex) - {session}
        && Of(records, session).recent == [] && Of(records, session).written == Of(old(records), session).written
      ensures forall s :: s != session ==> Of(records, s) == Of(old(records), s)
    {
      hide Accounted;
      if session in files {
        if !removed {
          return true;
        }
        ghost var before, r, noted := files, Of(records, session), records;
        files := files - {session};
        records := records[session := r.(pieces := r.pieces + [Removed(before[session])], recent := [])];
        RemoveKeeps(before, backups, session, r);
        forall s | s != session ensures Accounted(files, backups, s, Of(records, s)) {
          SameFile(before, files, backups, s, Of(noted, s));
        }
      } else {
        assert Accounted(files, backups, session, Of(records, session));
        AbsentIsEmpty(files, backups, session, Of(records, session));
        assert files - {session} == files;
      }
      sessionIndex := sessionIndex - {session};
      failed := !saved;
    }
  }

  function Rotate(r: Record, stamp: string, text: string): Record {
    r.(pieces := r.pieces + [Rotated(stamp, text)], recent := [])
  }

  lemma TextSnoc(pieces: seq<Piece>, p: Piece)
    ensures Text(pieces + [p]) == Text(pieces) + p.text
  {
    assert (pieces + [p])[..|pieces|] == pieces;
  }

  lemma {:induction false} NothingWritten(recent: seq<string>)
    ensures Terminated(recent) == "" <==> recent == []
  {
  }

  lemma AbsentIsEmpty(files: map<string, string>, backups: Backups, session: string, r: Record)
    requires Accounted(files, backups, session, r) && session !in files
    ensures r.recent == []
  {
    NothingWritten(r.recent);
  }

  lemma BackedUpAfterRotation(backups: Backups, session: string, pieces: seq<Piece>, stamp: string, text: string)
    requires BackedUp(backups, session, pieces)
    ensures BackedUp(backups[(session, stamp) := text], session, pieces + [Rotated(stamp, text)])
  {
    var more := pieces + [Rotated(stamp, text)];
    forall i | LastUse(more, i)
      ensures (session, more[i].stamp) in backups[(session, stamp) := text] &&
              backups[(session, stamp) := text][(session, more[i].stamp)] == more[i].text
    {
      if i < |pieces| {
        LastUseBefore(pieces, Rotated(stamp, text), i);
      }
    }
  }

  lemma RotateKeeps(files: map<string, string>, backups: Backups, session: string, r: Record, stamp: string,
                    now: map<string, string>)
    requires session in files && Accounted(files, backups, session, r) && Current(now, session) == ""
    ensures Accounted(now, backups[(session, stamp) := files[session]], session, Rotate(r, stamp, files[session]))
  {
    hide BackedUp;
    TextSnoc(r.pieces, Rotated(stamp, files[session]));
    BackedUpAfterRotation(backups, session, r.pieces, stamp, files[session]);
    assert Terminated([]) == "";
    assert r.written + "" == r.written;
  }

  lemma OtherKeeps(files: map<string, string>, backups: Backups, now: map<string, string>, after: Backups,
                   session: string, stamp: string,
                   s: string, r: Record)
    requires Accounted(files, backups, s, r) && s != session && Current(now, s) == Current(files, s)
    requires forall k :: k in backups && k.0 == s ==> k in after && after[k] == backups[k]
    ensures Accounted(now, after, s, r)
  {
  }

  lemma SameFile(files: map<string, string>, now: map<string, string>, backups: Backups, s: string, r: Record)
    requires Accounted(files, backups, s, r) && Current(now, s) == Current(files, s)
    ensures Accounted(now, backups, s, r)
  {
  }

  lemma AppendKeeps(files: map<string, string>, backups: Backups, session: string, r: Record, data: string)
    requires Accounted(files, backups, session, r)
    ensures Accounted(files[session := Current(files, session) + data + "\n"], backups, session,
                      r.(written := r.written + data + "\n", recent := r.recent + [data]))
  {
    hide BackedUp;
    TerminatedSnoc(r.recent, data);
    var c := Current(files, session);
    assert Text(r.pieces) + c + data + "\n" == Text(r.pieces) + (c + data + "\n");
  }

  lemma RemoveKeeps(files: map<string, string>, backups: Backups, session: string, r: Record)
    requires session in files && Accounted(files, backups, session, r)
    ensures Accounted(files - {session}, backups, session,
                      r.(pieces := r.pieces + [Removed(files[session])], recent := []))
  {
    TextSnoc(r.pieces, Removed(files[session]));
    var more := r.pieces + [Removed(files[session])];
    forall i | LastUse(more, i)
      ensures (session, more[i].stamp) in backups && backups[(session, more[i].stamp)] == more[i].text
    {
      LastUseBefore(r.pieces, Removed(files[session]), i);
    }
    assert Terminated([]) == "";
    assert r.written + "" == r.written;
  }

  // ---- Conservation ----

  function Stored(backups: Backups, session: string, p: Piece): string {
    match p
    case Removed(text) => text
    case Rotated(stamp, _) => if (session, stamp) in backups then backups[(session, stamp)] else ""
  }

  function Retrieved(backups: Backups, session: string, pieces: seq<Piece>): string {
    if pieces == [] then ""
    else Retrieved(backups, session, pieces[..|pieces| - 1]) + Stored(backups, session, pieces[|pieces| - 1])
  }

  /** The `i`-th piece is a rotation whose text can be read from its backup. */
  ghost predicate Survives(backups: Backups, session: string, pieces: seq<Piece>, i: int) {
    && 0 <= i < |pieces| && pieces[i].Rotated?
    && (session, pieces[i].stamp) in backups && backups[(session, pieces[i].stamp)] == pieces[i].text
  }

  lemma {:induction false} LastUseOf(pieces: seq<Piece>, i: nat) returns (k: nat)
    requires i < |pieces| && pieces[i].Rotated?
    ensures i <= k < |pieces| && LastUse(pieces, k) && pieces[k].stamp == pieces[i].stamp
    decreases |pieces| - i
  {
    k := i;
    if !LastUse(pieces, i) {
      var j :| i < j < |pieces| && pieces[j].Rotated? && pieces[j].stamp == pieces[i].stamp;
      k := LastUseOf(pieces, j);
    }
  }

  /** A rotation survives exactly when the last one with its time stamp has the same text. */
  lemma RotationSurvivesIff(backups: Backups, session: string, pieces: seq<Piece>, i: nat, k: nat)
    requires BackedUp(backups, session, pieces)
    requires i < |pieces| && pieces[i].Rotated? && LastUse(pieces, k) && pieces[k].stamp == pieces[i].stamp
    ensures Survives(backups, session, pieces, i) <==> pieces[k].text == pieces[i].text
  {
  }

  /** Rotations that share a time stamp have the same text. */
  ghost predicate StampsAgree(pieces: seq<Piece>) {
    forall i, j ::
      0 <= i < j < |pieces| && pieces[i].Rotated? && pieces[j].Rotated? && pieces[i].stamp == pieces[j].stamp ==>
      pieces[i].text == pieces[j].text
  }

  /** All rotations of a session survive exactly when those that share a time stamp agree. */
  lemma AllSurviveIff(w: Worker, session: string)
    requires w.Valid()
    ensures var pieces := Of(w.records, session).pieces;
      (forall i :: 0 <= i < |pieces| && pieces[i].Rotated? ==> Survives(w.backups, session, pieces, i)) <==>
        StampsAgree(pieces)
  {
    var pieces := Of(w.records, session).pieces;
    assert Accounted(w.files, w.backups, session, Of(w.records, session));
    if StampsAgree(pieces) {
      forall i | 0 <= i < |pieces| && pieces[i].Rotated? ensures Survives(w.backups, session, pieces, i) {
        var k := LastUseOf(pieces, i);
        RotationSurvivesIff(w.backups, session, pieces, i, k);
      }
    }
    if forall i :: 0 <= i < |pieces| && pieces[i].Rotated? ==> Survives(w.backups, session, pieces, i) {
      forall i, j | 0 <= i < j < |pieces| && pieces[i].Rotated? && pieces[j].Rotated? &&
        pieces[i].stamp == pieces[j].stamp
        ensures pieces[i].text == pieces[j].text
      {
        assert Survives(w.backups, session, pieces, i) && Survives(w.backups, session, pieces, j);
      }
    }
  }

  /** Two rotations in one second: what the first one set aside is in no backup, and not in
      the current file. */
  method TwoRotationsInOneSecond() returns (w: Worker)
    ensures fresh(w) && w.Valid() && Of(w.records, "s").written == "a\nb\nc\n"
    ensures Current(w.files, "s") == "c\n" && w.backups == map[("s", "t") := "b\n"]
    ensures !Survives(w.backups, "s", Of(w.records, "s").pieces, 0)
  {
    hide Accounted;
    w := new Worker(1);
    var failed := w.AppendTranscript("s", "a", "t", true, true, true, true);
    assert w.files["s"] == "a\n" && w.backups == map[] && Of(w.records, "s") == Record("a\n", [], ["a"]);
    failed := w.AppendTranscript("s", "b", "t", true, true, true, true);
    assert w.files["s"] == "b\n" && w.backups == map[("s", "t") := "a\n"];
    assert Of(w.records, "s") == Record("a\nb\n", [Rotated("t", "a\n")], ["b"]);
    failed := w.AppendTranscript("s", "c", "t", true, true, true, true);
    assert Of(w.records, "s").pieces[0] == Rotated("t", "a\n");
  }

  lemma {:induction false} RetrievedIsText(backups: Backups, session: string, pieces: seq<Piece>, n: nat)
    requires BackedUp(backups, session, pieces) && StampsAgree(pieces) && n <= |pieces|
    ensures Retrieved(backups, session, pieces[..n]) == Text(pieces[..n])
  {
    if n > 0 {
      RetrievedIsText(backups, session, pieces, n - 1);
      if pieces[n - 1].Rotated? {
        var k := LastUseOf(pieces, n - 1);
        RotationSurvivesIff(backups, session, pieces, n - 1, k);
      }
      assert pieces[..n][..n - 1] == pieces[..n - 1];
      assert pieces[..n][n - 1] == pieces[n - 1];
    }
  }

  /** When rotations that share a time stamp agree, the backups in order, what resets
      removed, and the current file together are everything that was ever written. */
  lemma NothingIsLost(w: Worker, session: string)
    requires w.Valid() && StampsAgree(Of(w.records, session).pieces)
    ensures Of(w.records, session).written ==
            Retrieved(w.backups, session, Of(w.records, session).pieces) + Current(w.files, session)
  {
    hide Retrieved, Text, BackedUp;
    var r := Of(w.records, session);
    assert Accounted(w.files, w.backups, session, r);
    RetrievedIsText(w.backups, session, r.pieces, |r.pieces|);
    assert r.pieces[..|r.pieces|] == r.pieces;
  }
}
