/**
 * Reading a port list: parse_ports and cmdline_parse_portlist
 * (dpdk-2.0.0/lib/librte_cmdline/cmdline_parse_portlist.c). A C string is the sequence of its
 * characters before the terminator, so the end of the sequence stands for the NUL; a pointer into
 * it is the suffix it points to.
 */
module PortListParse {
  import opened Basics
  import opened Cmdline
  import opened PortList
  import opened PortListText

  /** What strtoul finds: a value, and how many characters make it up. */
  datatype Number = Number(value: nat, used: nat)

  const WORD := 0x1_0000_0000_0000_0000

  /** sizeof(map) * 8 */
  const MAP_BITS := 32

  /** PORTLIST_TOKEN_SIZE */
  const TOKEN_SIZE := 128

  // ------------------------------------------------------------------------------------
  // The C library
  // ------------------------------------------------------------------------------------

  predicate IsSpace(c: char) {
    c == ' ' || 9 <= c as int <= 13
  }

  function Blanks(s: string): (n: nat)
    ensures n <= |s|
  {
    if s != "" && IsSpace(s[0]) then 1 + Blanks(s[1..]) else 0
  }

  /** The length of the digits that `s` begins with. */
  function Digits(s: string): (n: nat)
    ensures n <= |s|
  {
    if s != "" && IsDigit(s[0]) then 1 + Digits(s[1..]) else 0
  }

  /** A value in the unsigned type: negated modulo 2^64 behind a minus, `None` when it is out of
      range and errno is set. */
  function InRange(v: nat, minus: bool, used: nat): (r: Option<Number>)
    ensures v >= WORD ==> r == None
    ensures v < WORD ==> r == Some(Number(if minus && v > 0 then WORD - v else v, used))
  {
    if v >= WORD then None else Some(Number(if minus && v > 0 then WORD - v else v, used))
  }

  /** Where the digits may begin: behind blanks and a sign. */
  function DigitsStart(s: string): (b: nat)
    ensures Blanks(s) <= b <= |s|
  {
    var a := Blanks(s);
    if a < |s| && (s[a] == '-' || s[a] == '+') then a + 1 else a
  }

  /** The result of strtoul in base 10: the value and the number of characters used; none used
      without digits. */
  function Strtoul(s: string): (r: Option<Number>)
    ensures r.Some? ==> r.value.value < WORD && r.value.used <= |s|
  {
    var a, b := Blanks(s), DigitsStart(s);
    var n := Digits(s[b..]);
    if n == 0 then Some(Number(0, 0))
    else InRange(Value(s[b..b + n]), a < |s| && s[a] == '-', b + n)
  }

  /** strchr(s, ','): the position of the first comma, or the end of the string for NULL. */
  function Comma(s: string): (n: nat)
    ensures n <= |s| && (n < |s| ==> s[n] == ',') && forall i :: 0 <= i < n ==> s[i] != ','
  {
    if s == "" || s[0] == ',' then 0 else 1 + Comma(s[1..])
  }

  // ------------------------------------------------------------------------------------
  // parse_ports
  // ------------------------------------------------------------------------------------

  /** One entry, N or N-M, up to `last`. */
  function Entry(s: string, last: nat): Option<Run> {
    match Strtoul(s)
    case None => None
    case Some(Number(ps, end)) =>
      if end == 0 || (end < |s| && s[end] != '-' && end != last) then None
      else if end < |s| && s[end] == '-' then
        (match Strtoul(s[end + 1..])
         case None => None
         case Some(Number(pe, more)) =>
           if more == 0 || (end + 1 + more < |s| && end + 1 + more != last) then None
           else Some(Run(ps, pe)))
      else Some(Run(ps, ps))
  }

  /** A range the map can hold. */
  predicate Accepted(r: Run) {
    r.first <= r.last < MAP_BITS
  }

  /** The ports of a list, added to those of `map_`: those of its first entry... */
  function Parsed(s: string, map_: set<nat>): Option<set<nat>>
    decreases |s|, 1
  {
    Behind(s, Comma(s), Entry(s, Comma(s)), map_)
  }

  /** ...and of what stands behind the comma. */
  function Behind(s: string, last: nat, entry: Option<Run>, map_: set<nat>): Option<set<nat>>
    requires last <= |s|
    decreases |s|, 0
  {
    if entry.None? || !Accepted(entry.value) then None
    else
      var now := map_ + Between(entry.value.first, entry.value.last);
      if last == |s| then Some(now) else Parsed(s[last + 1..], now)
  }

  /** parse_set_list */
  method ParseSetList(map_: set<nat>, low: nat, high: nat) returns (res: set<nat>)
    requires low <= high < MAP_BITS
    ensures res == map_ + Between(low, high)
  {
    res := map_ + {low};
    var i := low + 1;
    while i <= high
      invariant low < i <= high + 1
      invariant res == map_ + Between(low, i - 1)
    {
      res := res + {i};
      i := i + 1;
    }
  }

  /** One round of parse_ports behind strchr and strtoul. */
  method AddEntry(first: string, last: nat, entry: Option<Run>, map_: set<nat>)
    returns (ok: bool, res: set<nat>)
    requires last <= |first|
    ensures !ok ==> Behind(first, last, entry, map_) == None
    ensures ok ==> Behind(first, last, entry, map_) ==
                   if last == |first| then Some(res) else Parsed(first[last + 1..], res)
  {
    if entry.None? || !Accepted(entry.value) {
      return false, map_;
    }
    ok := true;
    res := ParseSetList(map_, entry.value.first, entry.value.last);
  }

  /** parse_ports; on an error the map is what the entries before the bad one left in it, which
      its caller throws away. */
  method ParsePorts(str: string) returns (ok: bool, map_: set<nat>)
    ensures ok == Parsed(str, {}).Some?
    ensures ok ==> Parsed(str, {}) == Some(map_)
  {
    var first, more := str, true;
    map_ := {};
    ghost var all := Parsed(str, {});
    while more
      invariant more ==> all == Parsed(first, map_)
      invariant !more ==> all == Some(map_)
      decreases more, |first|
    {
      var last := Comma(first);
      var good, res := AddEntry(first, last, Entry(first, last), map_);
      if !good {
        return false, map_;
      }
      map_ := res;
      if last == |first| {
        more := false;
      } else {
        first := first[last + 1..];
      }
    }
    ok := true;
  }

  // ------------------------------------------------------------------------------------
  // A printed number, a printed run, a printed list
  // ------------------------------------------------------------------------------------

  predicate Numeral(d: string) {
    forall i :: 0 <= i < |d| ==> IsDigit(d[i])
  }

  lemma {:induction false} DigitsOf(d: string, tail: string)
    requires Numeral(d)
    requires tail != "" ==> !IsDigit(tail[0])
    ensures Digits(d + tail) == |d|
  {
    if d != "" {
      DigitsOf(d[1..], tail);
      assert (d + tail)[1..] == d[1..] + tail;
    } else {
      assert d + tail == tail;
    }
  }

  lemma StrtoulDigits(s: string, d: string)
    requires d != "" && Numeral(d) && |d| <= |s| && s[..|d|] == d && Digits(s) == |d|
    ensures Strtoul(s) == if Value(d) < WORD then Some(Number(Value(d), |d|)) else None
  {
    assert s[0] == d[0] && Blanks(s) == 0;
    assert s[0..] == s && s[0..0 + |d|] == s[..|d|];
  }

  /** All leading blanks are skipped. */
  lemma {:induction false} BlanksOf(b: string, tail: string)
    requires (forall i :: 0 <= i < |b| ==> IsSpace(b[i])) && (tail != "" ==> !IsSpace(tail[0]))
    ensures Blanks(b + tail) == |b|
  {
    if b != "" {
      BlanksOf(b[1..], tail);
      assert (b + tail)[1..] == b[1..] + tail;
    } else {
      assert b + tail == tail;
    }
  }

  /** strtoul reads a numeral and stops behind it. */
  lemma NumberBack(d: string, tail: string)
    requires Numeral(d) && d != "" && (tail != "" ==> !IsDigit(tail[0]))
    ensures Strtoul(d + tail) == if Value(d) < WORD then Some(Number(Value(d), |d|)) else None
  {
    DigitsOf(d, tail);
    assert (d + tail)[..|d|] == d;
    StrtoulDigits(d + tail, d);
  }

  lemma {:induction false} CommaOf(d: string, tail: string)
    requires forall i :: 0 <= i < |d| ==> d[i] != ','
    requires tail != "" ==> tail[0] == ','
    ensures Comma(d + tail) == |d|
  {
    if d != "" {
      CommaOf(d[1..], tail);
      assert (d + tail)[1..] == d[1..] + tail;
    } else {
      assert d + tail == tail;
    }
  }

  /** A text for `n`: digits with that value. */
  predicate Spells(d: string, n: nat) {
    d != "" && Numeral(d) && Value(d) == n
  }

  /** A text for a run: N, or N-M. */
  ghost predicate Spelled(t: string, r: Run) {
    exists d, e :: Spells(d, r.first) && Spells(e, r.last) && t == if r.first == r.last then d else d + "-" + e
  }

  lemma RunTextSpelled(r: Run)
    ensures Spelled(RunText(r), r)
  {
    ValueOfDec(r.first);
    ValueOfDec(r.last);
    assert Spells(Dec(r.first), r.first) && Spells(Dec(r.last), r.last);
  }

  lemma NoComma(t: string, r: Run)
    requires Spelled(t, r)
    ensures forall i :: 0 <= i < |t| ==> t[i] != ','
  {
    var d, e :| Spells(d, r.first) && Spells(e, r.last) && t == if r.first == r.last then d else d + "-" + e;
  }

  /** A single port... */
  lemma OneBack(d: string, tail: string, s: string)
    requires Numeral(d) && d != "" && (tail != "" ==> tail[0] == ',') && s == d + tail
    ensures Entry(s, |d|) ==
            if Value(d) < WORD then Some(Run(Value(d), Value(d))) else None
  {
    NumberBack(d, tail);
  }

  lemma EntryOfTwo(s: string, first: Option<Number>, second: Option<Number>, end: nat, last: nat)
    requires 0 < end < |s| && s[end] == '-' && end + 1 < last
    requires Strtoul(s) == first && (first.Some? ==> first.value.used == end)
    requires Strtoul(s[end + 1..]) == second
    requires second.Some? ==> end + 1 + second.value.used == last
    ensures Entry(s, last) == if first.Some? && second.Some?
                              then Some(Run(first.value.value, second.value.value)) else None
  {
  }

  lemma DashBehind(d: string, behind: string, s: string)
    requires s == d + ("-" + behind)
    ensures |d| < |s| && s[|d|] == '-' && s[|d| + 1..] == behind
  {
  }

  /** What strtoul makes of a numeral. */
  function NumberOf(d: string): Option<Number> {
    if Value(d) < WORD then Some(Number(Value(d), |d|)) else None
  }

  lemma BothBack(d: string, e: string, tail: string, s: string)
    requires Numeral(d) && d != "" && Numeral(e) && e != "" && (tail != "" ==> tail[0] == ',')
    requires s == d + ("-" + (e + tail))
    ensures |d| < |s| && s[|d|] == '-'
    ensures Strtoul(s) == NumberOf(d) && Strtoul(s[|d| + 1..]) == NumberOf(e)
  {
    NumberBack(d, "-" + (e + tail));
    NumberBack(e, tail);
    DashBehind(d, e + tail, s);
  }

  /** ...and a range. */
  lemma RangeBack(d: string, e: string, tail: string, s: string)
    requires Numeral(d) && d != "" && Numeral(e) && e != "" && (tail != "" ==> tail[0] == ',')
    requires s == d + ("-" + (e + tail))
    ensures Entry(s, |d| + 1 + |e|) ==
            if Value(d) < WORD && Value(e) < WORD then Some(Run(Value(d), Value(e))) else None
  {
    BothBack(d, e, tail, s);
    EntryOfTwo(s, NumberOf(d), NumberOf(e), |d|, |d| + 1 + |e|);
  }

  lemma Regrouped(a: string, b: string, tail: string)
    ensures (a + "-" + b) + tail == a + ("-" + (b + tail))
  {
  }

  lemma RangeTextBack(d: string, e: string, tail: string, s: string)
    requires Numeral(d) && d != "" && Numeral(e) && e != "" && (tail != "" ==> tail[0] == ',')
    requires s == (d + "-" + e) + tail
    ensures Entry(s, |d| + 1 + |e|) ==
            if Value(d) < WORD && Value(e) < WORD then Some(Run(Value(d), Value(e))) else None
  {
    Regrouped(d, e, tail);
    RangeBack(d, e, tail, s);
  }

  /** A run in text is read back as the run, unless strtoul finds it out of range. */
  lemma RunBack(t: string, r: Run, tail: string, s: string)
    requires Spelled(t, r) && (tail != "" ==> tail[0] == ',') && s == t + tail
    ensures Entry(s, |t|) == if r.first < WORD && r.last < WORD then Some(r) else None
  {
    var d, e :| Spells(d, r.first) && Spells(e, r.last) && t == if r.first == r.last then d else d + "-" + e;
    if r.first == r.last {
      OneBack(d, tail, s);
    } else {
      RangeTextBack(d, e, tail, s);
    }
  }

  /** What is behind an entry that was read as `r`, or not at all. */
  lemma BehindRun(t: string, r: Run, tail: string, s: string, entry: Option<Run>, map_: set<nat>)
    requires s == t + tail && (entry == Some(r) || (entry == None && !Accepted(r)))
    ensures Behind(s, |t|, entry, map_) ==
            if !Accepted(r) then None
            else if tail == "" then Some(map_ + Between(r.first, r.last))
            else Parsed(tail[1..], map_ + Between(r.first, r.last))
  {
    if tail != "" {
      assert s[|t| + 1..] == tail[1..];
    }
  }

  lemma EntryBack(t: string, r: Run, tail: string, s: string)
    requires Spelled(t, r) && (tail != "" ==> tail[0] == ',') && s == t + tail
    ensures Comma(s) == |t| && Entry(s, Comma(s)) == if r.first < WORD && r.last < WORD then Some(r) else None
  {
    NoComma(t, r);
    CommaOf(t, tail);
    RunBack(t, r, tail, s);
  }

  /** The loop of parse_ports on a run in text. */
  lemma StepBack(t: string, r: Run, tail: string, s: string, map_: set<nat>)
    requires Spelled(t, r) && (tail != "" ==> tail[0] == ',') && s == t + tail
    ensures Parsed(s, map_) ==
            if !Accepted(r) then None
            else if tail == "" then Some(map_ + Between(r.first, r.last))
            else Parsed(tail[1..], map_ + Between(r.first, r.last))
  {
    EntryBack(t, r, tail, s);
    BehindRun(t, r, tail, s, Entry(s, Comma(s)), map_);
  }

  predicate AllAccepted(rs: seq<Run>) {
    forall i :: 0 <= i < |rs| ==> Accepted(rs[i])
  }

  lemma NothingBack(map_: set<nat>)
    ensures Parsed("", map_) == None
  {
    assert ""[0..] == "" && Digits("") == 0;
    assert Strtoul("") == Some(Number(0, 0));
  }

  ghost predicate AllSpelled(ps: seq<string>, rs: seq<Run>) {
    |ps| == |rs| && (|rs| > 0 ==> Spelled(ps[0], rs[0]) && AllSpelled(ps[1..], rs[1..]))
  }

  lemma {:induction false} PiecesSpelled(rs: seq<Run>)
    ensures AllSpelled(Pieces(rs), rs)
  {
    if |rs| > 0 {
      RunTextSpelled(rs[0]);
      PiecesSpelled(rs[1..]);
      assert Pieces(rs)[1..] == Pieces(rs[1..]);
    }
  }

  /** What a printed list denotes, once accepted. */
  function Denoted(rs: seq<Run>, map_: set<nat>): Option<set<nat>> {
    if |rs| > 0 && AllAccepted(rs) then Some(map_ + PortsOf(rs)) else None
  }

  lemma DenotedStep(rs: seq<Run>, map_: set<nat>)
    requires |rs| > 0
    ensures var now := map_ + Between(rs[0].first, rs[0].last);
            Denoted(rs, map_) == if !Accepted(rs[0]) then None
                                 else if |rs| == 1 then Some(now)
                                 else Denoted(rs[1..], now)
  {
    var now := map_ + Between(rs[0].first, rs[0].last);
    if Accepted(rs[0]) {
      assert now + {} == now && (|rs| == 1 ==> PortsOf(rs[1..]) == {});
      assert forall i :: 1 <= i < |rs| ==> rs[i] == rs[1..][i - 1];
      assert AllAccepted(rs[1..]) ==> AllAccepted(rs);
      assert AllAccepted(rs) ==> AllAccepted(rs[1..]);
      assert now + PortsOf(rs[1..]) == map_ + PortsOf(rs);
    }
  }

  /** Any reader of lists, such as Parsed. */
  type Reader = (string, set<nat>) -> Option<set<nat>>

  /** It reads a run in text and goes on behind the comma. */
  ghost predicate ReadsRun(f: Reader, t: string, r: Run, tail: string, map_: set<nat>) {
    var now := map_ + Between(r.first, r.last);
    f(t + tail, map_) == if !Accepted(r) then None else if tail == "" then Some(now) else f(tail[1..], now)
  }

  ghost predicate ReadsRuns(f: Reader) {
    && (forall m :: f("", m) == None)
    && forall t, r, tail, m :: Spelled(t, r) && (tail != "" ==> tail[0] == ',') ==> ReadsRun(f, t, r, tail, m)
  }

  lemma ReadsLast(f: Reader, t: string, r: Run, map_: set<nat>)
    requires ReadsRuns(f) && Spelled(t, r)
    ensures f(t, map_) == if !Accepted(r) then None else Some(map_ + Between(r.first, r.last))
  {
    assert ReadsRun(f, t, r, "", map_);
    assert t + "" == t;
  }

  lemma ReadsFirst(f: Reader, t: string, r: Run, rest: string, map_: set<nat>)
    requires ReadsRuns(f) && Spelled(t, r)
    ensures f(t + ("," + rest), map_) ==
            if !Accepted(r) then None else f(rest, map_ + Between(r.first, r.last))
  {
    assert ReadsRun(f, t, r, "," + rest, map_);
    assert ("," + rest)[1..] == rest;
  }

  /** Whatever reads runs one by one reads a list as the ports it denotes. */
  lemma {:induction false} SpelledBack(f: Reader, ps: seq<string>, rs: seq<Run>, map_: set<nat>)
    requires ReadsRuns(f) && AllSpelled(ps, rs)
    ensures f(Join(ps, |ps|), map_) == Denoted(rs, map_)
    decreases |rs|
  {
    if |rs| > 0 {
      DenotedStep(rs, map_);
      if |rs| == 1 {
        ReadsLast(f, ps[0], rs[0], map_);
      } else {
        JoinFirst(ps, |ps|);
        ReadsFirst(f, ps[0], rs[0], Join(ps[1..], |ps| - 1), map_);
        SpelledBack(f, ps[1..], rs[1..], map_ + Between(rs[0].first, rs[0].last));
      }
    }
  }

  lemma ParsedReadsRuns()
    ensures ReadsRuns(Parsed)
  {
    forall m ensures Parsed("", m) == None {
      NothingBack(m);
    }
    forall t, r, tail, m | Spelled(t, r) && (tail != "" ==> tail[0] == ',') ensures ReadsRun(Parsed, t, r, tail, m) {
      StepBack(t, r, tail, t + tail, m);
    }
  }

  /** Reading a printed list gives the ports it denotes, exactly when it has an entry and every
      entry is a range the map can hold; otherwise it is refused. */
  lemma ListBack(rs: seq<Run>, map_: set<nat>)
    ensures Parsed(Text(rs), map_) == Denoted(rs, map_)
  {
    PiecesSpelled(rs);
    ParsedReadsRuns();
    SpelledBack(Parsed, Pieces(rs), rs, map_);
  }

  // ------------------------------------------------------------------------------------
  // cmdline_parse_portlist
  // ------------------------------------------------------------------------------------

  /** An accepted token: its length and its ports. */
  datatype Reading = Reading(used: nat, ports: set<nat>)

  function ReadToken(buf: string): Option<Reading> {
    var n := TokenLength(buf);
    if n >= TOKEN_SIZE then None
    else if buf[..n] == "all" then Some(Reading(n, Between(0, MAP_BITS - 1)))
    else match Parsed(buf[..n], {})
         case None => None
         case Some(ports) => Some(Reading(n, ports))
  }

  method ParsePortlist(buf: string) returns (r: Option<Reading>)
    ensures r == ReadToken(buf)
  {
    if buf == "" {
      NothingBack({});
      assert buf[..TokenLength(buf)] == "";
      return None;
    }
    var n := 0;
    while n < |buf| && !EndsToken(buf[n]) && n < TOKEN_SIZE
      invariant n <= |buf| && n <= TOKEN_SIZE
      invariant forall i :: 0 <= i < n ==> !EndsToken(buf[i])
    {
      n := n + 1;
    }
    assert n < TOKEN_SIZE ==> n == TokenLength(buf);
    if n >= TOKEN_SIZE {
      return None;
    }
    if buf[..n] == "all" {
      return Some(Reading(n, Between(0, MAP_BITS - 1)));
    }
    var ok, ports := ParsePorts(buf[..n]);
    return if ok then Some(Reading(n, ports)) else None;
  }

  lemma {:induction false} JoinPlain(ps: seq<string>, n: nat)
    requires n <= |ps| && forall i :: 0 <= i < |ps| ==> Plain(ps[i])
    ensures Plain(Join(ps, n))
  {
    if n > 1 {
      JoinPlain(ps, n - 1);
    }
  }

  lemma PiecePlain(r: Run)
    ensures Plain(RunText(r)) && RunText(r) != "" && RunText(r)[0] != 'a'
  {
    assert IsDigit(Dec(r.first)[0]);
  }

  lemma TextPlain(rs: seq<Run>)
    ensures Plain(Text(rs)) && Text(rs) != "all"
  {
    forall i | 0 <= i < |rs| ensures Plain(Pieces(rs)[i]) {
      PiecePlain(rs[i]);
    }
    JoinPlain(Pieces(rs), |rs|);
    if |rs| > 0 {
      PiecePlain(rs[0]);
      JoinStarts(Pieces(rs), |rs|);
      assert Text(rs)[0] == RunText(rs[0])[0];
    }
  }

  lemma {:induction false} JoinStarts(ps: seq<string>, n: nat)
    requires 0 < n <= |ps| && ps[0] != ""
    ensures Join(ps, n) != "" && Join(ps, n)[0] == ps[0][0]
  {
    if n > 1 {
      JoinStarts(ps, n - 1);
    }
  }

  /** Thirty-two ports make at most sixteen runs. */
  lemma {:induction false} FewRuns(ports: set<nat>, bit: nat)
    requires Mask(ports) && forall p :: p in ports ==> p < MAP_BITS
    ensures bit >= MAP_BITS ==> RunsFrom(ports, bit) == []
    ensures bit <= MAP_BITS + 1 ==> 2 * |RunsFrom(ports, bit)| <= MAP_BITS + 1 - bit
    decreases 64 - bit
  {
    if bit < 64 {
      if bit !in ports {
        FewRuns(ports, bit + 1);
      } else {
        SkipGap(ports, bit);
        FewRuns(ports, RunEnd(ports, bit) + 2);
      }
    }
  }

  lemma {:induction false} AcceptedBelow(rs: seq<Run>, p: nat)
    requires AllAccepted(rs) && p in PortsOf(rs)
    ensures p < MAP_BITS
  {
    if p !in Between(rs[0].first, rs[0].last) {
      AcceptedBelow(rs[1..], p);
    }
  }

  /** The ports a map can hold: what decides whether a printed mask can be read back. */
  predicate Readable(ports: set<nat>) {
    ports != {} && forall p :: p in ports ==> p < MAP_BITS
  }

  lemma RunsAccepted(ports: set<nat>)
    requires Mask(ports)
    ensures Denoted(Runs(ports), {}) == if Readable(ports) then Some(ports) else None
  {
    var rs := Runs(ports);
    RunsDenote(ports);
    RunsSmall(ports, 0);
    forall i | 0 <= i < |rs| ensures rs[i].last in ports && rs[i].first <= rs[i].last {
      assert rs[i] in rs && Maximal(ports, rs[i]);
    }
    if AllAccepted(rs) {
      forall p | p in ports ensures p < MAP_BITS {
        AcceptedBelow(rs, p);
      }
    }
    if |rs| > 0 {
      assert rs[0].last in ports;
    }
    assert {} + PortsOf(rs) == ports;
  }

  /** The word for all ports, and tokens that are too long. */
  lemma AllPorts(rest: string)
    requires rest != "" ==> EndsToken(rest[0])
    ensures var r := ReadToken("all" + rest);
            r.Some? && r.value.used == 3 && forall p: nat :: p in r.value.ports <==> p < 32
  {
    TokenOf("all", rest);
    assert ("all" + rest)[..3] == "all";
  }

  lemma LongToken(s: string, rest: string)
    requires Plain(s) && |s| >= 128 && (rest != "" ==> EndsToken(rest[0]))
    ensures ReadToken(s + rest) == None
  {
    TokenOf(s, rest);
  }

  /** A printed port mask, followed by anything that ends a token, is read back as the same ports
      exactly when it names a port and none above 31; every other mask is refused. */
  lemma PrintedMaskBack(ports: set<nat>, rest: string)
    requires Mask(ports) && (rest != "" ==> EndsToken(rest[0]))
    ensures var text := Text(Runs(ports));
            ReadToken(text + rest) == if Readable(ports) then Some(Reading(|text|, ports)) else None
  {
    var text := Text(Runs(ports));
    TextPlain(Runs(ports));
    TokenOf(text, rest);
    assert (text + rest)[..|text|] == text;
    ListBack(Runs(ports), {});
    RunsAccepted(ports);
    if Readable(ports) {
      FewRuns(ports, 0);
      PiecesSmall(ports);
      JoinLength(Pieces(Runs(ports)), |Runs(ports)|);
      assert |text| < TOKEN_SIZE;
    }
  }
}
