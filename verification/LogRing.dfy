/**
 * The log of pktgen (pktgen-2.8.6/app/pktgen-log.c): a circular buffer of messages and the page
 * that shows the most recent ones.
 */
module LogRing {
  import opened Basics

  const LOG_HISTORY: nat := 64
  const LOG_MAX_LINE: nat := 1024
  const MAX_PAGE_LINES: nat := 28

  /** A message in the form in which the page shows it. */
  type Entry = string

  /** `snprintf` into a buffer of LOG_MAX_LINE characters. */
  function Cut(text: string): (r: string)
    ensures |r| == Min(|text|, LOG_MAX_LINE - 1) && r == text[..|r|]
  {
    if |text| < LOG_MAX_LINE then text else text[..LOG_MAX_LINE - 1]
  }

  function Newlines(text: string): nat {
    if text == [] then 0 else Newlines(text[..|text| - 1]) + if text[|text| - 1] == '\n' then 1 else 0
  }

  lemma {:induction false} NewlinesCount(text: string)
    ensures Newlines(text) == multiset(text)['\n']
  {
    if text != [] {
      NewlinesCount(text[..|text| - 1]);
      assert text == text[..|text| - 1] + [text[|text| - 1]];
    }
  }

  /** Lines an entry takes on the page: its first, and one for each newline in it. */
  function Lines(e: Entry): (n: nat)
    ensures n >= 1
  {
    Newlines(e) + 1
  }

  /** Lines the entries from the k-th on take. */
  function Total(es: seq<Entry>, k: nat): nat
    decreases |es| - k
  {
    if k >= |es| then 0 else Lines(es[k]) + Total(es, k + 1)
  }

  lemma TotalCounts(es: seq<Entry>, k: nat)
    requires k <= |es|
    ensures Total(es, k) == if k == |es| then 0 else 1 + multiset(es[k])['\n'] + Total(es, k + 1)
  {
    if k < |es| {
      NewlinesCount(es[k]);
    }
  }

  /** The last at most `n` elements. */
  function LastOf(s: seq<Entry>, n: nat): (r: seq<Entry>)
    ensures |r| == Min(|s|, n)
  {
    if |s| <= n then s else s[|s| - n..]
  }

  lemma LastOfAt(s: seq<Entry>, n: nat, i: nat)
    requires i < |LastOf(s, n)|
    ensures LastOf(s, n)[i] == s[|s| - |LastOf(s, n)| + i]
  {
  }

  // ------------------------------------------------------------------------------------
  // What the page shows
  // ------------------------------------------------------------------------------------

  /** The shortest suffix of `es` that fills the page starts at `k`; 0 if all of it does not. */
  ghost predicate PageStart(es: seq<Entry>, k: nat) {
    && k <= |es|
    && (k > 0 ==> Total(es, k) >= MAX_PAGE_LINES)
    && (k < |es| ==> Total(es, k + 1) < MAX_PAGE_LINES)
  }

  /** A later start shows fewer lines. */
  lemma {:induction false} TotalMono(es: seq<Entry>, j: nat, k: nat)
    requires j <= k <= |es|
    ensures Total(es, k) + (k - j) <= Total(es, j)
    decreases k - j
  {
    if j < k {
      TotalMono(es, j + 1, k);
    }
  }

  /** There is only one such start. */
  lemma PageStartUnique(es: seq<Entry>, j: nat, k: nat)
    requires PageStart(es, j) && PageStart(es, k)
    ensures j == k
  {
    if j < k {
      TotalMono(es, j + 1, k);
    } else if k < j {
      TotalMono(es, k + 1, j);
    }
  }

  datatype Line = Line(row: nat, text: string)

  /** Where the page puts the entries from the k-th on, that one in `row`. */
  function Placed(es: seq<Entry>, k: nat, row: nat): seq<Line>
    decreases |es| - k
  {
    if k >= |es| then [] else [Line(row, es[k])] + Placed(es, k + 1, row + Lines(es[k]))
  }

  /** In chronological order, each entry on the row behind the lines of those before it. */
  lemma {:induction false} PlacedAt(es: seq<Entry>, k: nat, row: nat, i: nat)
    requires k <= i < |es|
    ensures |Placed(es, k, row)| == |es| - k && Total(es, i) <= Total(es, k)
    ensures Placed(es, k, row)[i - k] == Line(row + Total(es, k) - Total(es, i), es[i])
    decreases |es| - k
  {
    if k < i {
      PlacedAt(es, k + 1, row + Lines(es[k]), i);
    } else if k + 1 < |es| {
      PlacedAt(es, k + 1, row + Lines(es[k]), k + 1);
    }
  }

  /** The page texts of the entries from the k-th on, the newest first. */
  function Newest(es: seq<Entry>, k: nat): (r: seq<string>)
    requires k <= |es|
    ensures |r| == |es| - k
    decreases |es| - k
  {
    if k == |es| then [] else Newest(es, k + 1) + [es[k]]
  }

  lemma {:induction false} NewestAt(es: seq<Entry>, k: nat, i: nat)
    requires k <= |es| && i < |es| - k
    ensures Newest(es, k)[i] == es[|es| - 1 - i]
    decreases |es| - k
  {
    if i < |es| - k - 1 {
      NewestAt(es, k + 1, i);
    }
  }

  method CountNewlines(text: string) returns (n: nat)
    ensures n == Newlines(text)
  {
    n := 0;
    for i := 0 to |text|
      invariant n == Newlines(text[..i])
    {
      assert text[..i + 1][..i] == text[..i];
      if text[i] == '\n' {
        n := n + 1;
      }
    }
    assert text[..|text|] == text;
  }

  // ------------------------------------------------------------------------------------
  // The ring
  // ------------------------------------------------------------------------------------

  /** Index of the k-th entry behind the tail. */
  function At(tail: nat, k: nat): nat {
    if tail + k < LOG_HISTORY then tail + k else tail + k - LOG_HISTORY
  }

  lemma Before(tail: nat, k: nat)
    requires tail < LOG_HISTORY && 0 < k < LOG_HISTORY
    ensures (At(tail, k) + LOG_HISTORY - 1) % LOG_HISTORY == At(tail, k - 1)
  {
  }

  class Log {
    const msg: array<Entry>
    var head: nat
    var tail: nat
    var needRefresh: bool
    /** What the ring holds between tail and head, oldest first. */
    ghost var entries: seq<Entry>

    ghost predicate Valid()
      reads this, msg
    {
      && msg.Length == LOG_HISTORY && head < LOG_HISTORY && tail < LOG_HISTORY
      && |entries| < LOG_HISTORY && head == At(tail, |entries|)
      && forall k :: 0 <= k < |entries| ==> msg[At(tail, k)] == entries[k]
    }

    /** pktgen_init_log. */
    constructor ()
      ensures Valid() && entries == [] && fresh(msg)
    {
      msg := new Entry[LOG_HISTORY](_ => "");
      head, tail, needRefresh, entries := 0, 0, false, [];
    }

    /** pktgen_log: the entry becomes the newest of at most 63. */
    method Append(text: string)
      requires Valid()
      modifies this`head, this`tail, this`needRefresh, this`entries, msg
      ensures Valid() && needRefresh
      ensures entries == LastOf(old(entries) + [Cut(text)], LOG_HISTORY - 1)
      ensures |entries| == Min(|old(entries)| + 1, 63) && entries[|entries| - 1] == Cut(text)
      ensures entries[..|entries| - 1] == old(entries)[|old(entries)| + 1 - |entries|..]
    {
      msg[head] := Cut(text);
      needRefresh := true;
      MoveHead(msg[head]);
    }

    /** The head moves one slot on and pushes the tail before it when it catches up. */
    method MoveHead(e: Entry)
      requires msg.Length == LOG_HISTORY && head < LOG_HISTORY && tail < LOG_HISTORY
      requires |entries| < LOG_HISTORY && head == At(tail, |entries|) && msg[head] == e
      requires forall k :: 0 <= k < |entries| ==> msg[At(tail, k)] == entries[k]
      modifies this`head, this`tail, this`entries
      ensures Valid()
      ensures entries == LastOf(old(entries) + [e], LOG_HISTORY - 1)
    {
      ghost var all := entries + [e];
      assert forall k :: 0 <= k < |all| ==> msg[At(tail, k)] == all[k];
      head := (head + 1) % LOG_HISTORY;
      entries := all;
      if head == tail {
        assert |all| == LOG_HISTORY;
        tail := (tail + 1) % LOG_HISTORY;
        entries := all[1..];
        assert forall k :: 0 <= k < |entries| ==> At(tail, k) == At(old(tail), k + 1);
      }
    }

    /** One slot back, around the end of the array. */
    method Back(curr: nat, ghost k: nat) returns (prev: nat)
      requires Valid() && 0 < k <= |entries| && curr == At(tail, k)
      ensures prev == At(tail, k - 1) && prev < msg.Length && msg[prev] == entries[k - 1]
    {
      Before(tail, k);
      prev := (curr + LOG_HISTORY - 1) % LOG_HISTORY;
    }

    /** One turn of that loop: the text of an entry and the lines it takes. */
    method CopyLine(lines: array<string>, count: nat, curr: nat) returns (n: nat)
      requires curr < msg.Length && count < lines.Length
      modifies lines
      ensures lines[..count + 1] == old(lines[..count]) + [msg[curr]]
      ensures n == Lines(msg[curr])
    {
      lines[count] := msg[curr];
      n := CountNewlines(lines[count]);
      n := n + 1;
    }

    /** The loop that goes backwards from the head, newest entry first, until the page is full.
        It never writes past its 28 lines. */
    method Collect() returns (lines: array<string>, count: nat, ghost k: nat)
      requires Valid()
      ensures fresh(lines) && lines.Length == MAX_PAGE_LINES && count <= MAX_PAGE_LINES
      ensures PageStart(entries, k) && lines[..count] == Newest(entries, k)
    {
      lines := new string[MAX_PAGE_LINES](_ => "");
      count := 0;
      k := |entries|;
      var outputLines, curr := 0, head;
      while curr != tail && outputLines < MAX_PAGE_LINES
        invariant k + count == |entries| && count <= outputLines && count <= MAX_PAGE_LINES
        invariant curr == At(tail, k)
        invariant outputLines == Total(entries, k)
        invariant k < |entries| ==> Total(entries, k + 1) < MAX_PAGE_LINES
        invariant lines[..count] == Newest(entries, k)
        decreases k
      {
        curr := Back(curr, k);
        k := k - 1;
        var n := CopyLine(lines, count, curr);
        outputLines := outputLines + n;
        count := count + 1;
      }
    }

    /** The loop that prints the collected lines from the oldest to the newest. */
    static method Print(lines: array<string>, count: nat, ghost es: seq<Entry>, ghost k: nat) returns (shown: seq<Line>)
      requires k <= |es| && count <= lines.Length && lines[..count] == Newest(es, k)
      ensures shown == Placed(es, k, 3)
    {
      shown := [];
      var row, curr := 3, count;
      ghost var i := k;
      while curr > 0
        invariant 0 <= curr <= count && k <= i <= |es| && lines[..curr] == Newest(es, i)
        invariant shown + Placed(es, i, row) == Placed(es, k, 3)
      {
        assert lines[..curr][curr - 1] == es[i];
        assert lines[..curr][..curr - 1] == Newest(es, i + 1);
        curr := curr - 1;
        PlacedStep(shown, es, i, row);
        shown := shown + [Line(row, lines[curr])];
        var newlines := CountNewlines(lines[curr]);
        row := row + 1 + newlines;
        i := i + 1;
      }
    }

    /** pktgen_page_log: the shortest suffix of the log that fills the page (or all of it), in
        chronological order, each entry below the lines of the one before. */
    method Page(printLabels: bool) returns (shown: seq<Line>, ghost k: nat)
      requires Valid()
      modifies this`needRefresh
      ensures Valid() && !needRefresh
      ensures printLabels || old(needRefresh) ==> PageStart(entries, k) && shown == Placed(entries, k, 3)
      ensures !printLabels && !old(needRefresh) ==> shown == []
    {
      shown, k := [], 0;
      if !printLabels && !needRefresh {
        return;
      }
      var lines, count;
      lines, count, k := Collect();
      shown := Print(lines, count, entries, k);
      needRefresh := false;
    }
  }

  lemma PlacedStep(shown: seq<Line>, es: seq<Entry>, i: nat, row: nat)
    requires i < |es|
    ensures shown + Placed(es, i, row) ==
            shown + [Line(row, es[i])] + Placed(es, i + 1, row + Lines(es[i]))
  {
  }

  lemma LastOfLast(s: seq<Entry>, e: Entry, n: nat)
    ensures LastOf(LastOf(s, n) + [e], n) == LastOf(s + [e], n)
  {
  }

  /** What a list of messages leaves in the log entries. */
  function Logged(es: seq<Entry>): (r: seq<Entry>)
    ensures |r| == |es|
  {
    if es == [] then []
    else Logged(es[..|es| - 1]) + [Cut(es[|es| - 1])]
  }

  lemma {:induction false} LoggedAt(es: seq<Entry>, i: nat)
    requires i < |es|
    ensures Logged(es)[i] == Cut(es[i])
  {
    if i < |es| - 1 {
      LoggedAt(es[..|es| - 1], i);
    }
  }

  method LogAll(es: seq<Entry>) returns (log: Log)
    ensures fresh(log) && log.Valid()
    ensures log.entries == LastOf(Logged(es), LOG_HISTORY - 1)
  {
    log := new Log();
    for i := 0 to |es|
      invariant fresh(log) && fresh(log.msg) && log.Valid()
      invariant log.entries == LastOf(Logged(es[..i]), LOG_HISTORY - 1)
    {
      assert es[..i + 1][..i] == es[..i];
      LastOfLast(Logged(es[..i]), Cut(es[i]), LOG_HISTORY - 1);
      log.Append(es[i]);
    }
    assert es[..|es|] == es;
  }

  /** After any number of messages the ring holds exactly the last 63 of them, in order. */
  method Session(es: seq<Entry>) returns (log: Log)
    ensures fresh(log) && log.Valid()
    ensures |log.entries| == Min(|es|, 63)
    ensures forall i :: 0 <= i < |log.entries| ==> log.entries[i] == Cut(es[|es| - |log.entries| + i])
  {
    log := LogAll(es);
    forall i | 0 <= i < |log.entries| ensures log.entries[i] == Cut(es[|es| - |log.entries| + i]) {
      LastOfAt(Logged(es), LOG_HISTORY - 1, i);
      LoggedAt(es, |es| - |log.entries| + i);
    }
  }
}
