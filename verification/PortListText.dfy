/** Printing a port mask with cmd_port_display (pktgen-2.8.6/app/commands.c). */
module PortListText {
  import opened PortList

  // ------------------------------------------------------------------------------------
  // Printing
  // ------------------------------------------------------------------------------------

  /** A beginning of a text. */
  predicate Begins(a: string, s: string) {
    |a| <= |s| && s[..|a|] == a
  }

  function CutTo(s: string, n: nat): string {
    if |s| <= n then s else s[..n]
  }

  /** `len - 5` in 32 bits. */
  function Limit(len: nat): int {
    if len >= 5 then len - 5 else len - 5 + 0x1_0000_0000
  }

  /** When the whole list is printed: it fits the buffer, and without its last piece it leaves
      the margin the loop insists on. */
  predicate Fits(len: nat, ps: seq<string>) {
    |Join(ps, |ps|)| < len && (|ps| > 0 ==> |Join(ps, |ps| - 1)| <= Limit(len))
  }

  lemma {:induction false} DecLength(n: nat)
    requires n < 100
    ensures |Dec(n)| <= 2
  {
    if n >= 10 {
      assert Dec(n / 10) == [Digit(n / 10)];
    }
  }

  /** At most 64 pieces of at most five characters. */
  predicate Small(ps: seq<string>) {
    |ps| <= 64 && forall i :: 0 <= i < |ps| ==> 0 < |ps[i]| <= 5
  }

  lemma {:induction false} JoinLength(ps: seq<string>, n: nat)
    requires Small(ps) && n <= |ps|
    ensures |Join(ps, n)| <= 6 * n
  {
    if n > 0 {
      JoinLength(ps, n - 1);
    }
  }

  lemma {:induction false} RunsSmall(ports: set<nat>, bit: nat)
    requires Mask(ports)
    ensures forall r :: r in RunsFrom(ports, bit) ==> r.first <= r.last < 63
    ensures bit <= 64 ==> |RunsFrom(ports, bit)| <= 64 - bit
    decreases 64 - bit
  {
    if bit < 64 {
      if bit !in ports {
        RunsSmall(ports, bit + 1);
      } else {
        var e := RunEnd(ports, bit);
        SkipGap(ports, bit);
        RunsSmall(ports, e + 2);
      }
    }
  }

  lemma PiecesSmall(ports: set<nat>)
    requires Mask(ports)
    ensures Small(Pieces(Runs(ports)))
  {
    RunsSmall(ports, 0);
    forall i | 0 <= i < |Runs(ports)| ensures 0 < |RunText(Runs(ports)[i])| <= 5 {
      DecLength(Runs(ports)[i].first);
      DecLength(Runs(ports)[i].last);
    }
  }

  /** A piece follows a comma unless it is the first. */
  function WithComma(piece: string, comma: bool): string {
    (if comma then "," else "") + piece
  }

  lemma JoinNext(ps: seq<string>, n: nat)
    requires n < |ps|
    ensures Join(ps, n + 1) == Join(ps, n) + WithComma(ps[n], n > 0)
  {
  }

  /** More pieces, more text. */
  lemma {:induction false} JoinPrefix(ps: seq<string>, i: nat, j: nat)
    requires i <= j <= |ps| && Small(ps)
    ensures Begins(Join(ps, i), Join(ps, j))
    ensures i < j ==> |Join(ps, i)| < |Join(ps, j)|
  {
    if i < j {
      JoinPrefix(ps, i, j - 1);
      JoinNext(ps, j - 1);
    }
  }

  /** snprintf of one more piece behind what is already there. */
  lemma CutAppend(s: string, piece: string, len: nat)
    requires len >= 1
    ensures CutTo(s + piece, len - 1) ==
            CutTo(s, len - 1) + CutTo(piece, len - 1 - |CutTo(s, len - 1)|)
  {
  }

  /** The loop after `k` pieces. */
  ghost predicate Printed(ps: seq<string>, k: nat, text: string, len: nat) {
    && k <= |ps| && 1 <= len < 0x1_0000_0000
    && text == CutTo(Join(ps, k), len - 1) && |text| < len
    && (k > 0 ==> |Join(ps, k - 1)| <= Limit(len))
  }

  /** What the buffer holds after snprintf of a piece behind the text. */
  function Printf(text: string, piece: string, comma: bool, len: nat): string {
    if |text| < len then text + CutTo(WithComma(piece, comma), len - 1 - |text|) else text
  }

  /** Printing one more piece when the text so far leaves the margin. */
  lemma PrintNext(ps: seq<string>, k: nat, text: string, len: nat)
    requires Small(ps) && Printed(ps, k, text, len) && k < |ps|
    requires k > 0 ==> |text| <= Limit(len)
    ensures Printed(ps, k + 1, Printf(text, ps[k], k > 0, len), len)
  {
    JoinNext(ps, k);
    CutAppend(Join(ps, k), WithComma(ps[k], k > 0), len);
    JoinLength(ps, k);
  }

  /** A text that comes too near to the end of the buffer is not the whole list, and the list
      does not fit. */
  lemma StoppedEarly(s: string, before: string, all: string, text: string, len: nat)
    requires |s| <= 384 && Begins(s, all) && |s| < |all| && |s| <= |before|
    requires 1 <= len < 0x1_0000_0000 && text == CutTo(s, len - 1) && |text| > Limit(len)
    ensures Begins(text, all) && text != all && |before| > Limit(len)
  {
  }

  lemma CutWhole(all: string, len: nat)
    requires len >= 1
    ensures Begins(CutTo(all, len - 1), all) && (CutTo(all, len - 1) == all <==> |all| < len)
  {
  }

  lemma TooLong(ps: seq<string>, len: nat)
    requires |ps| > 0 && |Join(ps, |ps| - 1)| > Limit(len)
    ensures !Fits(len, ps)
  {
  }

  lemma BreakFacts(ps: seq<string>, k: nat)
    requires Small(ps) && k < |ps|
    ensures |Join(ps, k)| <= 384 && Begins(Join(ps, k), Join(ps, |ps|))
    ensures |Join(ps, k)| < |Join(ps, |ps|)| && |Join(ps, k)| <= |Join(ps, |ps| - 1)|
  {
    JoinLength(ps, k);
    JoinPrefix(ps, k, |ps|);
    JoinPrefix(ps, k, |ps| - 1);
  }

  /** How the loop ends when the text is too long... */
  lemma PrintBreaks(ps: seq<string>, k: nat, text: string, len: nat)
    requires Small(ps) && Printed(ps, k, text, len)
    requires k < |ps| && |text| > Limit(len)
    ensures Begins(text, Join(ps, |ps|)) && text != Join(ps, |ps|) && !Fits(len, ps)
  {
    BreakFacts(ps, k);
    StoppedEarly(Join(ps, k), Join(ps, |ps| - 1), Join(ps, |ps|), text, len);
    TooLong(ps, len);
  }

  /** ...and when no piece is left. */
  lemma PrintEnds(ps: seq<string>, k: nat, text: string, len: nat)
    requires Printed(ps, k, text, len) && k == |ps|
    ensures Begins(text, Join(ps, |ps|))
    ensures text == Join(ps, |ps|) <==> Fits(len, ps)
  {
    CutWhole(Join(ps, |ps|), len);
  }

  lemma PrintStops(ps: seq<string>, k: nat, text: string, len: nat)
    requires Small(ps) && Printed(ps, k, text, len)
    requires k < |ps| ==> |text| > Limit(len)
    ensures Begins(text, Join(ps, |ps|))
    ensures text == Join(ps, |ps|) <==> Fits(len, ps)
    ensures text != Join(ps, |ps|) ==> |text| == len - 1 || |text| > Limit(len)
  {
    if k < |ps| {
      PrintBreaks(ps, k, text, len);
    } else {
      PrintEnds(ps, k, text, len);
    }
  }

  /** The inner loop: past the set bits. */
  method SkipSet(ports: set<nat>, first: nat) returns (bit: nat)
    requires Mask(ports) && first in ports
    ensures bit == RunEnd(ports, first) + 1
  {
    bit := first + 1;
    while bit in ports
      invariant first < bit <= 63
      invariant RunEnd(ports, first) == if bit in ports then RunEnd(ports, bit) else bit - 1
      decreases 63 - bit
    {
      bit := bit + 1;
    }
  }

  /** The runs from `bit` on are those from the `k`th on. */
  ghost predicate At(ports: set<nat>, bit: nat, k: nat)
    requires Mask(ports)
  {
    bit <= 64 && k <= |Runs(ports)| && RunsFrom(ports, bit) == Runs(ports)[k..]
  }

  lemma AtRun(ports: set<nat>, bit: nat, k: nat)
    requires Mask(ports) && At(ports, bit, k) && bit in ports
    ensures var e := RunEnd(ports, bit);
            && k < |Runs(ports)| && Runs(ports)[k] == Run(bit, e)
            && At(ports, e + 1, k + 1)
  {
    var e := RunEnd(ports, bit);
    var rest := RunsFrom(ports, e + 1);
    assert Runs(ports)[k..] == [Run(bit, e)] + rest;
    assert Runs(ports)[k..][1..] == Runs(ports)[k + 1..];
  }

  lemma AtClear(ports: set<nat>, bit: nat, k: nat)
    requires Mask(ports) && At(ports, bit, k) && bit < 64 && bit !in ports
    ensures At(ports, bit + 1, k)
  {
  }

  lemma AtEnd(ports: set<nat>, k: nat)
    requires Mask(ports) && At(ports, 64, k)
    ensures k == |Runs(ports)|
  {
  }

  /** What prints a run behind a text. The loop below does the same whatever that is; it is
      snprintf into a buffer of `len` bytes. */
  type Printer = (string, Run, bool) -> string

  function Snprintf(len: nat): Printer {
    (text, r, comma) => Printf(text, RunText(r), comma, len)
  }

  /** What the buffer holds after `k` runs, one printed behind the other. */
  function TextAfter(f: Printer, rs: seq<Run>, k: nat): string
    requires k <= |rs|
  {
    if k == 0 then "" else f(TextAfter(f, rs, k - 1), rs[k - 1], k > 1)
  }

  /** One run of set bits, from the first on: skipped, and printed behind the text. */
  method PrintRun(f: Printer, ports: set<nat>, first: nat, text: string, comma: bool, ghost k: nat)
    returns (bit: nat, longer: string)
    requires Mask(ports) && first in ports && At(ports, first, k)
    ensures first < bit && At(ports, bit, k + 1) && k < |Runs(ports)|
    ensures longer == f(text, Runs(ports)[k], comma)
  {
    bit := SkipSet(ports, first);
    AtRun(ports, first, k);
    longer := f(text, Run(first, bit - 1), comma);
  }

  lemma LimitIs(len: nat)
    requires 1 <= len < 0x1_0000_0000
    ensures Limit(len) == (len + 0x1_0000_0000 - 5) % 0x1_0000_0000
  {
  }

  /** `len - 5` in 32 bits. */
  method Margin(len: nat) returns (limit: nat)
    requires 1 <= len < 0x1_0000_0000
    ensures limit == Limit(len)
  {
    LimitIs(len);
    limit := (len + 0x1_0000_0000 - 5) % 0x1_0000_0000;
  }

  /** A buffer that is always large enough. */
  lemma LargeEnough(len: nat, ps: seq<string>)
    requires Small(ps) && len >= 389
    ensures Fits(len, ps)
  {
    JoinLength(ps, |ps|);
    if |ps| > 0 {
      JoinLength(ps, |ps| - 1);
    }
  }

  /** The loop of cmd_port_display: it prints some of the runs and stops before the last only when
      the text has come too near to the end of the buffer. */
  method PrintRuns(f: Printer, len: nat, ports: set<nat>) returns (text: string, ghost k: nat)
    requires Mask(ports) && 1 <= len < 0x1_0000_0000
    ensures k <= |Runs(ports)| && text == TextAfter(f, Runs(ports), k)
    ensures k < |Runs(ports)| ==> |text| > Limit(len)
    ensures k > 1 ==> |TextAfter(f, Runs(ports), k - 1)| <= Limit(len)
  {
    text, k := "", 0;
    var bit: nat, comma := 0, false;
    var limit := Margin(len);
    while bit < 64
      invariant At(ports, bit, k) && text == TextAfter(f, Runs(ports), k)
      invariant comma == (k > 0) && (k > 0 ==> |text| <= limit)
      invariant k > 1 ==> |TextAfter(f, Runs(ports), k - 1)| <= limit
      decreases 64 - bit
    {
      if bit !in ports {
        AtClear(ports, bit, k);
        bit := bit + 1;
        continue;
      }
      bit, text := PrintRun(f, ports, bit, text, comma, k);
      k := k + 1;
      if |text| > limit {
        return;
      }
      comma := true;
    }
    AtEnd(ports, k);
  }

  lemma PrintfGrows(text: string, piece: string, comma: bool, len: nat)
    requires |text| < len
    ensures |text| <= |Printf(text, piece, comma, len)| < len
  {
  }

  lemma {:induction false} TextAfterShort(rs: seq<Run>, k: nat, len: nat)
    requires k <= |rs| && len >= 1
    ensures |TextAfter(Snprintf(len), rs, k)| < len
  {
    if k > 0 {
      TextAfterShort(rs, k - 1, len);
      PrintfGrows(TextAfter(Snprintf(len), rs, k - 1), RunText(rs[k - 1]), k > 1, len);
    }
  }

  lemma TextAfterGrows(rs: seq<Run>, k: nat, len: nat)
    requires 0 < k <= |rs| && len >= 1
    ensures |TextAfter(Snprintf(len), rs, k - 1)| <= |TextAfter(Snprintf(len), rs, k)|
  {
    TextAfterShort(rs, k - 1, len);
    PrintfGrows(TextAfter(Snprintf(len), rs, k - 1), RunText(rs[k - 1]), k > 1, len);
  }

  /** The loop after `k` runs, in terms of the joined list. */
  ghost predicate RunsPrinted(rs: seq<Run>, k: nat, len: nat)
    requires k <= |rs|
  {
    Printed(Pieces(rs), k, TextAfter(Snprintf(len), rs, k), len)
  }

  lemma RunsPrintedNext(rs: seq<Run>, k: nat, len: nat)
    requires Small(Pieces(rs)) && k < |rs| && RunsPrinted(rs, k, len)
    requires k > 0 ==> |TextAfter(Snprintf(len), rs, k)| <= Limit(len)
    ensures RunsPrinted(rs, k + 1, len)
  {
    PrintNext(Pieces(rs), k, TextAfter(Snprintf(len), rs, k), len);
  }

  /** The runs printed so far are the joined list, cut to the buffer. */
  lemma {:induction false} TextAfterPrinted(rs: seq<Run>, k: nat, len: nat)
    requires Small(Pieces(rs)) && k <= |rs| && 1 <= len < 0x1_0000_0000
    requires k > 1 ==> |TextAfter(Snprintf(len), rs, k - 1)| <= Limit(len)
    ensures RunsPrinted(rs, k, len)
  {
    if k > 0 {
      if k > 1 {
        TextAfterGrows(rs, k - 1, len);
      }
      TextAfterPrinted(rs, k - 1, len);
      RunsPrintedNext(rs, k - 1, len);
    }
  }

  /** What the loop leaves: the list of runs or a beginning of it, and the whole list exactly when
      it fits; otherwise the buffer is full or the text too near to its end. */
  method DisplayRuns(len: nat, ports: set<nat>) returns (text: string)
    requires Mask(ports) && 1 <= len < 0x1_0000_0000
    ensures Begins(text, Text(Runs(ports))) && |text| < len
    ensures text == Text(Runs(ports)) <==> Fits(len, Pieces(Runs(ports)))
    ensures text != Text(Runs(ports)) ==> |text| == len - 1 || |text| > Limit(len)
  {
    ghost var k;
    text, k := PrintRuns(Snprintf(len), len, ports);
    PiecesSmall(ports);
    TextAfterPrinted(Runs(ports), k, len);
    PrintStops(Pieces(Runs(ports)), k, text, len);
  }

  /** cmd_port_display: what is printed is the list of runs or a beginning of it; the whole list
      exactly when it fits and leaves `len - 5`, in 32 bits, before its last run, and always in a
      buffer of 389 bytes. */
  method Display(len: nat, ports: set<nat>) returns (text: string)
    requires Mask(ports) && 1 <= len < 0x1_0000_0000
    ensures Begins(text, Text(Runs(ports))) && |text| < len
    ensures var ps, limit := Pieces(Runs(ports)), (len + 0x1_0000_0000 - 5) % 0x1_0000_0000;
            && (text == Text(Runs(ports)) <==>
                |Join(ps, |ps|)| < len && (|ps| > 0 ==> |Join(ps, |ps| - 1)| <= limit))
            && (text != Text(Runs(ports)) ==> |text| == len - 1 || |text| > limit)
    ensures len >= 389 ==> text == Text(Runs(ports))
  {
    text := DisplayRuns(len, ports);
    LimitIs(len);
    PiecesSmall(ports);
    if len >= 389 {
      LargeEnough(len, Pieces(Runs(ports)));
    }
  }
}
