/** The output buffer of an exec session: internal/tool/builtin/exec_session.go. The capped
    buffer with its relative read position refines a log that never forgets. */
module ExecBuffer {
  type Byte = bv8

  const MAX_SESSION_BUFFER_BYTES := 0x10_0000
  const MAX_INT := 0x7FFF_FFFF_FFFF_FFFF

  // ---- Truncation ----

  /** Go's `int` on 64-bit machines. */
  predicate IsInt(n: int) {
    -MAX_INT - 1 <= n <= MAX_INT
  }

  function Wrap(n: int): (r: int)
    ensures IsInt(r) && (n - r) % (2 * MAX_INT + 2) == 0
    ensures IsInt(n) ==> r == n
  {
    (n + MAX_INT + 1) % (2 * MAX_INT + 2) - MAX_INT - 1
  }

  /** `truncateOutputByTokens` */
  function Truncated(output: seq<Byte>, maxOutputTokens: int): seq<Byte> {
    var approxChars := Wrap(maxOutputTokens * 4);
    if maxOutputTokens <= 0 || approxChars <= 0 || |output| <= approxChars then output
    else output[|output| - approxChars..]
  }

  predicate IsSuffix(s: seq<Byte>, t: seq<Byte>) {
    |s| <= |t| && s == t[|t| - |s|..]
  }

  /** Whatever the limit, the end of the output survives, and never more than it allows. */
  lemma TruncatedIsSuffix(output: seq<Byte>, maxOutputTokens: int)
    requires |output| <= MAX_INT && IsInt(maxOutputTokens)
    ensures IsSuffix(Truncated(output, maxOutputTokens), output)
    ensures maxOutputTokens > 0 ==> |Truncated(output, maxOutputTokens)| <= 4 * maxOutputTokens
  {
    if IsInt(maxOutputTokens * 4) {
      assert Wrap(maxOutputTokens * 4) == maxOutputTokens * 4;
    }
  }

  /** Zero and negative limits are none. */
  lemma NoLimit(output: seq<Byte>, maxOutputTokens: int)
    requires maxOutputTokens <= 0
    ensures Truncated(output, maxOutputTokens) == output
  {
  }

  lemma NothingToTruncate(maxOutputTokens: int)
    ensures Truncated([], maxOutputTokens) == []
  {
  }

  /** As many bytes as the limit allows are kept exactly when the product does not wrap
      around to a positive number that is too small for the output. */
  lemma KeepsWhatFits(output: seq<Byte>, maxOutputTokens: int)
    requires |output| <= MAX_INT && IsInt(maxOutputTokens) && maxOutputTokens > 0
    ensures |Truncated(output, maxOutputTokens)| ==
            (if |output| <= 4 * maxOutputTokens then |output| else 4 * maxOutputTokens) <==>
            IsInt(4 * maxOutputTokens) || Wrap(4 * maxOutputTokens) <= 0 || |output| <= Wrap(4 * maxOutputTokens)
  {
    assert maxOutputTokens * 4 == 4 * maxOutputTokens;
  }

  lemma FourBytesOfTen(output: seq<Byte>)
    requires |output| == 10
    ensures |Truncated(output, 0x4000_0000_0000_0001)| == 4
  {
    assert 0x4000_0000_0000_0001 * 4 == 4 + 1 * (2 * MAX_INT + 2);
  }

  // ---- The log ----

  /** What became of a byte that was produced. */
  datatype Fate = Unread | Delivered | Evicted | Cut

  /** The bytes with this fate, in order. */
  function Select(log: seq<Byte>, fate: seq<Fate>, f: Fate): seq<Byte>
    requires |fate| == |log|
  {
    if log == [] then []
    else Select(log[..|log| - 1], fate[..|log| - 1], f) + if fate[|log| - 1] == f then [log[|log| - 1]] else []
  }

  lemma {:induction false} SelectSplit(log: seq<Byte>, fate: seq<Fate>, f: Fate, n: nat)
    requires |fate| == |log| && n <= |log|
    ensures Select(log, fate, f) == Select(log[..n], fate[..n], f) + Select(log[n..], fate[n..], f)
  {
    if n == |log| {
      assert log[..n] == log && fate[..n] == fate;
    } else {
      var m := |log| - 1;
      SelectSplit(log[..m], fate[..m], f, n);
      assert log[..m][..n] == log[..n] && fate[..m][..n] == fate[..n];
      assert log[n..][..m - n] == log[..m][n..] && fate[n..][..m - n] == fate[..m][n..];
    }
  }

  lemma {:induction false} SelectAll(log: seq<Byte>, fate: seq<Fate>, f: Fate)
    requires |fate| == |log| && forall i :: 0 <= i < |fate| ==> fate[i] == f
    ensures Select(log, fate, f) == log
  {
    if log != [] {
      SelectAll(log[..|log| - 1], fate[..|log| - 1], f);
    }
  }

  lemma {:induction false} SelectNone(log: seq<Byte>, fate: seq<Fate>, f: Fate)
    requires |fate| == |log| && forall i :: 0 <= i < |fate| ==> fate[i] != f
    ensures Select(log, fate, f) == []
  {
    if log != [] {
      SelectNone(log[..|log| - 1], fate[..|log| - 1], f);
    }
  }

  function Marks(f: Fate, n: nat): seq<Fate> {
    seq(n, _ => f)
  }

  /** Every byte ever produced, with its fate, and all that was delivered so far. */
  datatype History = History(log: seq<Byte>, fate: seq<Fate>, delivered: seq<Byte>, cursor: nat)

  /** The cursor separates what has met its fate from what is unread; what was delivered
      is what the log holds at the delivered places, in that order; and a byte that was
      evicted unread had a full buffer behind it. */
  ghost predicate Consistent(h: History) {
    && |h.fate| == |h.log| && h.cursor <= |h.log|
    && (forall i :: 0 <= i < |h.log| ==> (h.fate[i] == Unread <==> h.cursor <= i))
    && h.delivered == Select(h.log, h.fate, Delivered)
    && (forall i :: 0 <= i < |h.log| && h.fate[i] == Evicted ==> i + MAX_SESSION_BUFFER_BYTES < |h.log|)
  }

  /** New output; the unread bytes before `base` are evicted. */
  function Appended(h: History, chunk: seq<Byte>, base: nat): History
    requires |h.fate| == |h.log| && h.cursor <= |h.log| && base <= |h.log| + |chunk|
  {
    var cursor := if h.cursor < base then base else h.cursor;
    History(h.log + chunk,
            h.fate[..h.cursor] + Marks(Evicted, cursor - h.cursor) + Marks(Unread, |h.log| + |chunk| - cursor),
            h.delivered, cursor)
  }

  /** Everything unread is taken: its end is delivered, the rest is cut. */
  function Taken(h: History, kept: nat): History
    requires |h.fate| == |h.log| && h.cursor <= |h.log| && kept <= |h.log| - h.cursor
  {
    History(h.log, h.fate[..h.cursor] + Marks(Cut, |h.log| - h.cursor - kept) + Marks(Delivered, kept),
            h.delivered + h.log[|h.log| - kept..], |h.log|)
  }

  lemma Bounds(h: History)
    requires Consistent(h)
    ensures |h.fate| == |h.log| && h.cursor <= |h.log|
  {
  }

  lemma AppendedConsistent(h: History, chunk: seq<Byte>, base: nat)
    requires Consistent(h) && base <= |h.log| + |chunk|
    requires base == 0 || base <= h.cursor || base + MAX_SESSION_BUFFER_BYTES <= |h.log| + |chunk|
    ensures Consistent(Appended(h, chunk, base))
  {
    hide Select;
    var a := Appended(h, chunk, base);
    SelectSplit(h.log, h.fate, Delivered, h.cursor);
    SelectNone(h.log[h.cursor..], h.fate[h.cursor..], Delivered);
    SelectSplit(a.log, a.fate, Delivered, h.cursor);
    SelectNone(a.log[h.cursor..], a.fate[h.cursor..], Delivered);
    assert a.log[..h.cursor] == h.log[..h.cursor] && a.fate[..h.cursor] == h.fate[..h.cursor];
  }

  lemma TakenConsistent(h: History, kept: nat)
    requires Consistent(h) && kept <= |h.log| - h.cursor
    ensures Consistent(Taken(h, kept))
  {
    hide Select;
    var t, m := Taken(h, kept), |h.log| - kept;
    SelectSplit(h.log, h.fate, Delivered, h.cursor);
    SelectNone(h.log[h.cursor..], h.fate[h.cursor..], Delivered);
    SelectSplit(t.log, t.fate, Delivered, m);
    SelectAll(t.log[m..], t.fate[m..], Delivered);
    SelectSplit(t.log[..m], t.fate[..m], Delivered, h.cursor);
    SelectNone(t.log[..m][h.cursor..], t.fate[..m][h.cursor..], Delivered);
    assert t.log[..m][..h.cursor] == h.log[..h.cursor] && t.fate[..m][..h.cursor] == h.fate[..h.cursor];
  }

  lemma {:induction false} FatesAddUp(log: seq<Byte>, fate: seq<Fate>)
    requires |fate| == |log|
    ensures |log| ==
            |Select(log, fate, Delivered)| + |Select(log, fate, Evicted)| + |Select(log, fate, Cut)| +
            |Select(log, fate, Unread)|
  {
    if log != [] {
      FatesAddUp(log[..|log| - 1], fate[..|log| - 1]);
    }
  }

  /** Conservation: every byte produced was delivered once, evicted, cut, or waits unread. */
  lemma NothingIsLost(h: History)
    requires Consistent(h)
    ensures |h.log| ==
            |h.delivered| + |Select(h.log, h.fate, Evicted)| + |Select(h.log, h.fate, Cut)| + (|h.log| - h.cursor)
  {
    hide Select;
    FatesAddUp(h.log, h.fate);
    SelectSplit(h.log, h.fate, Unread, h.cursor);
    SelectNone(h.log[..h.cursor], h.fate[..h.cursor], Unread);
    SelectAll(h.log[h.cursor..], h.fate[h.cursor..], Unread);
  }

  // ---- The session ----

  datatype Exit = Exited(code: int) | WaitError(message: seq<Byte>) | Clean

  class ExecSession {
    var output: seq<Byte>
    var readPos: int
    var exitCode: int
    ghost var base: nat      // where `output` starts in the log
    ghost var history: History

    ghost predicate Valid()
      reads this
    {
      && Consistent(history) && base <= history.cursor
      && output == history.log[base..] && readPos == history.cursor - base
    }

    constructor ()
      ensures Valid() && history == History([], [], [], 0) && output == []
    {
      output, readPos, exitCode, base, history := [], 0, 0, 0, History([], [], [], 0);
    }

    /** `appendOutput` */
    method AppendOutput(chunk: seq<Byte>)
      requires Valid()
      modifies this`output, this`readPos, this`base, this`history
      ensures Valid() && |output| <= MAX_SESSION_BUFFER_BYTES
      ensures base == if |old(output)| + |chunk| <= MAX_SESSION_BUFFER_BYTES then old(base)
                      else |history.log| - MAX_SESSION_BUFFER_BYTES
      ensures base <= |old(history).log| + |chunk| && history == Appended(old(history), chunk, base)
    {
      hide Select;
      ghost var all := history.log + chunk;
      output := output + chunk;
      assert output == all[base..];
      if |output| <= MAX_SESSION_BUFFER_BYTES {
        AppendedConsistent(history, chunk, base);
        history := Appended(history, chunk, base);
        return;
      }
      var drop := |output| - MAX_SESSION_BUFFER_BYTES;
      output := output[drop..];
      assert output == all[base + drop..];
      if readPos > drop {
        readPos := readPos - drop;
      } else {
        readPos := 0;
      }
      base := base + drop;
      AppendedConsistent(history, chunk, base);
      history := Appended(history, chunk, base);
    }

    /** The part of `waitAndClose` under the lock: its message is appended without the cap. */
    method WaitAndClose(result: Exit)
      requires Valid()
      modifies this
      ensures Valid() && base == old(base) <= |old(history).log|
      ensures history == Appended(old(history), if result.WaitError? then result.message else [], base)
      ensures exitCode == match result case Exited(code) => code case WaitError(_) => -1 case Clean => old(exitCode)
    {
      hide Select;
      ghost var chunk := if result.WaitError? then result.message else [];
      ghost var all := history.log + chunk;
      AppendedConsistent(history, chunk, base);
      match result {
        case Exited(code) => exitCode := code;
        case WaitError(message) =>
          exitCode := -1;
          output := output + message;
        case Clean =>
      }
      assert output == all[base..];
      history := Appended(history, chunk, base);
    }

    /** `readNewOutput`: the unread end of the log, and of that the end that the limit leaves. */
    method ReadNewOutput(maxOutputTokens: int) returns (chunk: seq<Byte>)
      requires Valid() && IsInt(maxOutputTokens) && |output| <= MAX_INT
      modifies this`readPos, this`history
      ensures Valid() && base == old(base) && output == old(output)
      ensures chunk == Truncated(old(history).log[old(history).cursor..], maxOutputTokens)
      ensures |chunk| <= |old(history).log| - old(history).cursor && history == Taken(old(history), |chunk|)
      ensures history.delivered == old(history).delivered + chunk
    {
      hide Select, Truncated, Consistent, IsInt;
      ghost var h := history;
      Bounds(h);
      ghost var unread := h.log[h.cursor..];
      assert output[readPos..] == unread;
      TruncatedIsSuffix(unread, maxOutputTokens);
      NothingToTruncate(maxOutputTokens);
      chunk := [];
      if readPos < |output| {
        var newChunk := output[readPos..];
        readPos := |output|;
        chunk := Truncated(newChunk, maxOutputTokens);
      }
      TakenConsistent(h, |chunk|);
      assert chunk == h.log[|h.log| - |chunk|..];
      history := Taken(h, |chunk|);
    }
  }
}
