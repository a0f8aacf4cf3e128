/**
 * Port masks as runs of ports, and runs as text: what cmd_port_display
 * (pktgen-2.8.6/app/commands.c) prints. A mask is the set of its bits.
 */
module PortList {

  /** The bits of a 64-bit mask that are tested without shifting past the word: all but the last. */
  predicate Mask(ports: set<nat>) {
    forall p :: p in ports ==> p < 63
  }

  datatype Run = Run(first: nat, last: nat)

  // ------------------------------------------------------------------------------------
  // Runs of ports
  // ------------------------------------------------------------------------------------

  /** The last port of the run that contains `bit`. */
  function RunEnd(ports: set<nat>, bit: nat): (e: nat)
    requires Mask(ports) && bit in ports
    ensures bit <= e && e in ports && e + 1 !in ports
    ensures forall p :: bit <= p <= e ==> p in ports
    decreases 63 - bit
  {
    if bit + 1 in ports then RunEnd(ports, bit + 1) else bit
  }

  function RunsFrom(ports: set<nat>, bit: nat): seq<Run>
    requires Mask(ports)
    decreases 64 - bit
  {
    if bit >= 64 then []
    else if bit !in ports then RunsFrom(ports, bit + 1)
    else [Run(bit, RunEnd(ports, bit))] + RunsFrom(ports, RunEnd(ports, bit) + 1)
  }

  function Runs(ports: set<nat>): seq<Run>
    requires Mask(ports)
  {
    RunsFrom(ports, 0)
  }

  function Between(a: nat, b: nat): (r: set<nat>)
    ensures forall p: nat :: p in r <==> a <= p <= b
    decreases b + 1 - a
  {
    if a > b then {} else {a} + Between(a + 1, b)
  }

  /** The ports a list of runs denotes. */
  function PortsOf(rs: seq<Run>): set<nat> {
    if rs == [] then {} else Between(rs[0].first, rs[0].last) + PortsOf(rs[1..])
  }

  /** Runs in increasing order, from `lo` on, that leave a gap between each other. */
  predicate Separated(rs: seq<Run>, lo: nat) {
    rs != [] ==> lo <= rs[0].first <= rs[0].last && Separated(rs[1..], rs[0].last + 2)
  }

  /** No port of the mask touches the run from outside, and all inside are in it. */
  predicate Maximal(ports: set<nat>, r: Run) {
    && (forall p :: r.first <= p <= r.last ==> p in ports)
    && r.last + 1 !in ports && (r.first > 0 ==> r.first - 1 !in ports)
  }

  /** After a run the next bit is clear. */
  lemma SkipGap(ports: set<nat>, bit: nat)
    requires Mask(ports) && bit in ports && bit < 64
    ensures var e := RunEnd(ports, bit);
            RunsFrom(ports, bit) == [Run(bit, e)] + RunsFrom(ports, e + 2)
  {
    assert RunEnd(ports, bit) < 63;
  }

  lemma {:induction false} RunsSeparated(ports: set<nat>, bit: nat, lo: nat)
    requires Mask(ports) && lo <= bit
    ensures Separated(RunsFrom(ports, bit), lo)
    decreases 64 - bit
  {
    if bit < 64 {
      if bit !in ports {
        RunsSeparated(ports, bit + 1, lo);
      } else {
        var e := RunEnd(ports, bit);
        var rest := RunsFrom(ports, e + 2);
        SkipGap(ports, bit);
        RunsSeparated(ports, e + 2, e + 2);
        assert ([Run(bit, e)] + rest)[1..] == rest;
      }
    }
  }

  lemma {:induction false} RunsCover(ports: set<nat>, bit: nat, p: nat)
    requires Mask(ports)
    ensures p in PortsOf(RunsFrom(ports, bit)) <==> p in ports && p >= bit
    decreases 64 - bit
  {
    if bit < 64 {
      if bit !in ports {
        RunsCover(ports, bit + 1, p);
      } else {
        var e := RunEnd(ports, bit);
        var rest := RunsFrom(ports, e + 2);
        SkipGap(ports, bit);
        RunsCover(ports, e + 2, p);
        assert ([Run(bit, e)] + rest)[1..] == rest;
      }
    }
  }

  ghost predicate AllMaximal(ports: set<nat>, rs: seq<Run>) {
    forall i :: 0 <= i < |rs| ==> Maximal(ports, rs[i])
  }

  lemma ConsMaximal(ports: set<nat>, head: Run, rest: seq<Run>)
    requires Maximal(ports, head) && AllMaximal(ports, rest)
    ensures AllMaximal(ports, [head] + rest)
  {
  }

  lemma {:induction false} RunsMaximal(ports: set<nat>, bit: nat)
    requires Mask(ports) && (bit > 0 ==> bit - 1 !in ports)
    ensures AllMaximal(ports, RunsFrom(ports, bit))
    decreases 64 - bit
  {
    if bit < 64 {
      if bit !in ports {
        RunsMaximal(ports, bit + 1);
      } else {
        var e := RunEnd(ports, bit);
        RunsMaximal(ports, e + 2);
        ConsMaximal(ports, Run(bit, e), RunsFrom(ports, e + 2));
        SkipGap(ports, bit);
      }
    }
  }

  /** The printed runs denote exactly the mask, as increasing, disjoint and maximal runs. */
  lemma RunsDenote(ports: set<nat>)
    requires Mask(ports)
    ensures PortsOf(Runs(ports)) == ports
    ensures Separated(Runs(ports), 0)
    ensures AllMaximal(ports, Runs(ports))
  {
    forall p: nat ensures p in PortsOf(Runs(ports)) <==> p in ports {
      RunsCover(ports, 0, p);
    }
    RunsSeparated(ports, 0, 0);
    RunsMaximal(ports, 0);
  }

  // ------------------------------------------------------------------------------------
  // Numbers and lists as text
  // ------------------------------------------------------------------------------------

  function Digit(d: nat): char
    requires d < 10
  {
    "0123456789"[d]
  }

  predicate IsDigit(c: char) {
    '0' <= c <= '9'
  }

  /** `%d` */
  function Dec(n: nat): (s: string)
    ensures |s| > 0 && forall i :: 0 <= i < |s| ==> IsDigit(s[i])
  {
    if n < 10 then [Digit(n)] else Dec(n / 10) + [Digit(n % 10)]
  }

  function DigitValue(c: char): nat {
    if IsDigit(c) then c as int - '0' as int else 0
  }

  function Value(s: string): nat {
    if s == [] then 0 else 10 * Value(s[..|s| - 1]) + DigitValue(s[|s| - 1])
  }

  lemma {:induction false} ValueOfDec(n: nat)
    ensures Value(Dec(n)) == n
  {
    if n < 10 {
      assert [Digit(n)][..0] == [];
    } else {
      ValueOfDec(n / 10);
      assert Dec(n)[..|Dec(n)| - 1] == Dec(n / 10);
    }
  }

  /** Decimal digits, the most significant first. */
  lemma ValueDigits(s: string, c: char)
    requires IsDigit(c)
    ensures Value("") == 0 && Value(s + [c]) == 10 * Value(s) + (c as int - '0' as int)
  {
    assert (s + [c])[..|s|] == s;
  }

  /** No leading zero. */
  lemma {:induction false} DecStarts(n: nat)
    ensures n > 0 ==> Dec(n)[0] != '0'
    ensures n == 0 ==> Dec(n) == "0"
  {
    if n >= 10 {
      DecStarts(n / 10);
    }
  }

  function RunText(r: Run): string {
    if r.first == r.last then Dec(r.first) else Dec(r.first) + "-" + Dec(r.last)
  }

  /** A dash is printed exactly for a range of more than one port. */
  lemma DashForRange(r: Run)
    ensures '-' in RunText(r) <==> r.first != r.last
  {
    if r.first != r.last {
      assert RunText(r)[|Dec(r.first)|] == '-';
    }
  }

  function Pieces(rs: seq<Run>): (ps: seq<string>)
    ensures |ps| == |rs| && forall i :: 0 <= i < |rs| ==> ps[i] == RunText(rs[i])
  {
    seq(|rs|, i requires 0 <= i < |rs| => RunText(rs[i]))
  }

  /** The first `n` pieces separated by commas. */
  function Join(ps: seq<string>, n: nat): string
    requires n <= |ps|
  {
    if n == 0 then ""
    else if n == 1 then ps[0]
    else Join(ps, n - 1) + "," + ps[n - 1]
  }

  /** A list of runs in the short-hand format. */
  function Text(rs: seq<Run>): string {
    Join(Pieces(rs), |rs|)
  }

  lemma Regroup(a: string, b: string, c: string)
    ensures (a + ("," + b)) + "," + c == a + ("," + (b + "," + c))
  {
  }

  lemma {:induction false} JoinFirst(ps: seq<string>, n: nat)
    requires 1 < n <= |ps|
    ensures Join(ps, n) == ps[0] + ("," + Join(ps[1..], n - 1))
  {
    if n > 2 {
      JoinFirst(ps, n - 1);
      Regroup(ps[0], Join(ps[1..], n - 2), ps[n - 1]);
    } else {
      assert ps[0] + "," + ps[1] == ps[0] + ("," + ps[1]);
    }
  }
}
