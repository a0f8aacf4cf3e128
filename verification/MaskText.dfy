/**
 * Masks as text: the loop of pktgen_page_random_bitfields (pktgen-2.8.6/app/pktgen-random.c) that
 * prints a compiled mask, and the filter of cmd_rnd_parsed (pktgen-2.8.6/app/commands.c) that
 * reads one.
 */
module MaskText {
  import opened Basics
  import opened Cmdline
  import opened Words
  import opened RandomBits

  /** Thirty-two characters in groups of eight, as on the page. */
  function Grouped(s: string): (r: string)
    requires |s| == 32
    ensures |r| == 35
  {
    seq(35, j requires 0 <= j < 35 => if j % 9 == 8 then ' ' else s[j - j / 9])
  }

  /** A test of one bit with a mask. */
  lemma TestBit(w: nat, k: nat)
    ensures And(w, Pow2(k)) != 0 <==> Bit(w, k)
  {
    var a := And(w, Pow2(k));
    BitAnd(w, Pow2(k), k);
    BitPow2(k, k);
    if Bit(w, k) {
      ZeroBits(k);
    } else {
      assert 2 * Pow2(k) == Pow2(k + 1);
      forall j | 0 <= j < k + 1 ensures Bit(a, j) <==> Bit(0, j) {
        BitAnd(w, Pow2(k), j);
        BitPow2(k, j);
        ZeroBits(j);
      }
      SameBits(a, 0, k + 1);
    }
  }

  /** The character printed for the i-th bit of a specification. */
  function CharAt(s: Spec, i: nat): char
    requires i < 32
  {
    if Bit(Swap(s.rndMask), 31 - i) then 'X'
    else if !Bit(Swap(s.andMask), 31 - i) then '0'
    else if Bit(Swap(s.orMask), 31 - i) then '1'
    else '.'
  }

  function Chars(s: Spec): (r: string)
    ensures |r| == 32
  {
    seq(32, i requires 0 <= i < 32 => CharAt(s, i))
  }

  /** Characters written to `i + (i >> 3)` between the three spaces are grouped by eight. */
  lemma GroupedIs(text: string, s: string)
    requires |text| == 35 && |s| == 32
    requires text[8] == text[17] == text[26] == ' '
    requires forall k :: 0 <= k < 32 ==> text[k + k / 8] == s[k]
    ensures text == Grouped(s)
  {
    forall j | 0 <= j < 35 ensures text[j] == Grouped(s)[j] {
      if j % 9 != 8 {
        var k := j - j / 9;
        assert k + k / 8 == j;
        assert text[k + k / 8] == s[k];
      } else {
        assert j == 8 || j == 17 || j == 26;
      }
    }
  }

  method BitChar(s: Spec, i: nat) returns (c: char)
    requires i < 32
    ensures c == CharAt(s, i)
  {
    TestBit(Swap(s.rndMask), 31 - i);
    TestBit(Swap(s.andMask), 31 - i);
    TestBit(Swap(s.orMask), 31 - i);
    var currBit := Pow2(31 - i);
    c := if And(Swap(s.rndMask), currBit) != 0 then 'X'
         else if And(Swap(s.andMask), currBit) == 0 then '0'
         else if And(Swap(s.orMask), currBit) != 0 then '1'
         else '.';
  }

  /** The printing loop. */
  method PrintMask(s: Spec) returns (text: string)
    ensures text == Grouped(Chars(s))
  {
    var mask := new char[35](_ => ' ');
    mask[8], mask[17], mask[26] := ' ', ' ', ' ';
    var i := 0;
    while i < 32
      invariant 0 <= i <= 32
      invariant mask[8] == mask[17] == mask[26] == ' '
      invariant forall k :: 0 <= k < i ==> mask[k + k / 8] == CharAt(s, k)
    {
      var c := BitChar(s, i);
      mask[i + i / 8] := c;
      i := i + 1;
    }
    text := mask[..];
    GroupedIs(text, Chars(s));
  }

  /** Printing a compiled mask gives the mask back, padded with '.'. */
  lemma PrintCompiled(offset: Byte, mask: string)
    requires IsMask(mask)
    ensures Chars(SpecOf(offset, mask)) == Pad(mask)
  {
    forall i | 0 <= i < 32 ensures CharAt(SpecOf(offset, mask), i) == Pad(mask)[i] {
      SpecBits(offset, mask, i);
      assert MaskChar(Pad(mask)[i]);
    }
  }

  // ------------------------------------------------------------------------------------
  // Reading
  // ------------------------------------------------------------------------------------

  /** The mask characters among the first `n` of a text. */
  function KeptTo(text: string, n: nat): string
    requires n <= |text|
  {
    if n == 0 then "" else KeptTo(text, n - 1) + if MaskChar(text[n - 1]) then [text[n - 1]] else []
  }

  /** The mask characters of a text. */
  function Kept(text: string): string {
    KeptTo(text, |text|)
  }

  function Take32(s: string): string {
    if |s| <= 32 then s else s[..32]
  }

  /** What the rnd command makes of its argument. */
  function Filtered(text: string): string {
    if text == "off" then "" else Take32(Kept(text))
  }

  lemma {:induction false} KeptLeft(s: string, t: string, n: nat)
    requires n <= |s|
    ensures KeptTo(s + t, n) == KeptTo(s, n)
  {
    if n > 0 {
      KeptLeft(s, t, n - 1);
    }
  }

  lemma {:induction false} KeptRight(s: string, t: string, n: nat)
    requires n <= |t|
    ensures KeptTo(s + t, |s| + n) == Kept(s) + KeptTo(t, n)
  {
    if n == 0 {
      KeptLeft(s, t, |s|);
    } else {
      KeptRight(s, t, n - 1);
    }
  }

  lemma KeptConcat(s: string, t: string)
    ensures Kept(s + t) == Kept(s) + Kept(t)
  {
    KeptRight(s, t, |t|);
  }

  lemma {:induction false} KeptAll(s: string, n: nat)
    requires n <= |s| && forall i :: 0 <= i < |s| ==> MaskChar(s[i])
    ensures KeptTo(s, n) == s[..n]
  {
    if n > 0 {
      KeptAll(s, n - 1);
    }
  }

  /** The filter in terms of single characters: it keeps the four of a mask and drops any other. */
  lemma KeptOne(c: char)
    ensures Kept([c]) == if c == '0' || c == '1' || c == '.' || c == 'X' then [c] else ""
  {
    assert KeptTo([c], 0) == "";
  }

  /** It keeps the first 32 of them, unless the argument is "off". */
  lemma FilteredIs(text: string)
    ensures text == "off" ==> Filtered(text) == ""
    ensures text != "off" ==>
              |Filtered(text)| == Min(|Kept(text)|, 32) && Filtered(text) == Kept(text)[..|Filtered(text)|]
  {
  }

  /** The filter loop: it stops after 32 mask characters. */
  method FilterMask(text: string) returns (mask: string)
    ensures mask == Filtered(text)
  {
    mask := "";
    if text != "off" {
      var i := 0;
      while |mask| < 32 && i < |text|
        invariant 0 <= i <= |text| && |mask| <= 32
        invariant mask == KeptTo(text, i)
      {
        if text[i] == '0' || text[i] == '1' || text[i] == '.' || text[i] == 'X' {
          mask := mask + [text[i]];
        }
        i := i + 1;
      }
      KeptPrefix(text, i, |text|);
    }
  }

  lemma {:induction false} KeptPrefix(text: string, i: nat, n: nat)
    requires i <= n <= |text|
    ensures |KeptTo(text, i)| <= |KeptTo(text, n)|
    ensures KeptTo(text, n)[..|KeptTo(text, i)|] == KeptTo(text, i)
  {
    if i < n {
      KeptPrefix(text, i, n - 1);
    }
  }

  lemma GroupedSlices(s: string)
    requires |s| == 32
    ensures Grouped(s) == s[..8] + (" " + (s[8..16] + (" " + (s[16..24] + (" " + s[24..])))))
  {
    var t := s[..8] + (" " + (s[8..16] + (" " + (s[16..24] + (" " + s[24..])))));
    assert |t| == 35;
    forall j | 0 <= j < 35 ensures Grouped(s)[j] == t[j] {
      if j < 9 {
      } else if j < 18 {
      } else if j < 27 {
      } else {
      }
    }
  }

  lemma KeptBlank(rest: string)
    ensures Kept(" " + rest) == Kept(rest)
  {
    KeptConcat(" ", rest);
    assert KeptTo(" ", 0) == "" && KeptTo(" ", 1) == "";
  }

  /** A group of mask characters, a blank and a rest. */
  lemma KeptGroup(group: string, rest: string)
    requires forall i :: 0 <= i < |group| ==> MaskChar(group[i])
    ensures Kept(group + (" " + rest)) == group + Kept(rest)
  {
    KeptAll(group, |group|);
    KeptConcat(group, " " + rest);
    KeptBlank(rest);
  }

  lemma FourGroups(s: string)
    requires |s| == 32
    ensures s[..8] + (s[8..16] + (s[16..24] + s[24..])) == s
  {
  }

  /** Spaces between the groups do not matter to the filter. */
  lemma FilterGrouped(s: string)
    requires |s| == 32 && forall i :: 0 <= i < |s| ==> MaskChar(s[i])
    ensures Filtered(Grouped(s)) == s
  {
    var a, b, c, d := s[..8], s[8..16], s[16..24], s[24..];
    KeptAll(d, |d|);
    KeptGroup(c, d);
    KeptGroup(b, c + (" " + d));
    KeptGroup(a, b + (" " + (c + (" " + d))));
    GroupedSlices(s);
    FourGroups(s);
  }

  /** For every mask: the page shows it padded and grouped by eight, and what the page shows, fed
      to the filter, compiles to the same specification. */
  lemma TextRoundTrip(offset: Byte, mask: string)
    requires IsMask(mask)
    ensures var shown := Grouped(Chars(SpecOf(offset, mask)));
            && shown == Grouped(Pad(mask))
            && Filtered(shown) == Pad(mask) && IsMask(Pad(mask))
            && SpecOf(offset, Filtered(shown)) == SpecOf(offset, mask)
  {
    PrintCompiled(offset, mask);
    FilterGrouped(Pad(mask));
    assert Pad(Pad(mask)) == Pad(mask);
  }

  // ------------------------------------------------------------------------------------
  // Through the command line
  // ------------------------------------------------------------------------------------

  /** The mask argument of a command: a string token, which ends at a blank. */
  function Argument(text: string): string {
    text[..TokenLength(text)]
  }

  lemma MaskToken(s: string, rest: string)
    requires (forall i :: 0 <= i < |s| ==> MaskChar(s[i])) && (rest != "" ==> EndsToken(rest[0]))
    ensures Argument(s + rest) == s
  {
    TokenOf(s, rest);
    assert (s + rest)[..|s|] == s;
  }

  lemma FilterShort(s: string)
    requires |s| <= 32 && forall i :: 0 <= i < |s| ==> MaskChar(s[i])
    ensures Filtered(s) == s
  {
    KeptAll(s, |s|);
    assert |s| > 0 ==> MaskChar(s[0]);
  }

  /** Two masks compile to the same specification exactly when they are the same once padded. */
  lemma SameSpec(offset: Byte, a: string, b: string)
    requires IsMask(a) && IsMask(b)
    ensures SpecOf(offset, a) == SpecOf(offset, b) <==> Pad(a) == Pad(b)
  {
    PrintCompiled(offset, a);
    PrintCompiled(offset, b);
  }

  /** A mask typed without blanks reaches the compiler as it is. */
  lemma TypedMask(offset: Byte, mask: string, rest: string)
    requires IsMask(mask) && (rest != "" ==> EndsToken(rest[0]))
    ensures Filtered(Argument(mask + rest)) == mask
  {
    MaskToken(mask, rest);
    FilterShort(mask);
  }

  lemma PadTail(mask: string, i: nat)
    requires |mask| <= 32 && i < 32
    ensures Pad(mask)[i] == if i < |mask| then mask[i] else '.'
  {
  }

  /** Text copied from the page is cut at its first blank: the command receives the first eight
      characters only, which is the same specification exactly when the mask ignores all bits
      behind them. */
  lemma PageTextAsArgument(offset: Byte, mask: string)
    requires IsMask(mask)
    ensures var got := Filtered(Argument(Grouped(Pad(mask))));
            && got == Pad(mask)[..8] && IsMask(got)
            && (SpecOf(offset, got) == SpecOf(offset, mask) <==>
                forall i :: 8 <= i < |mask| ==> mask[i] == '.')
  {
    var s := Pad(mask);
    var first := s[..8];
    GroupedSlices(s);
    MaskToken(first, " " + (s[8..16] + (" " + (s[16..24] + (" " + s[24..])))));
    FilterShort(first);
    SameSpec(offset, first, mask);
    forall i | 0 <= i < 32
      ensures s[i] == if i < |mask| then mask[i] else '.'
      ensures Pad(first)[i] == if i < 8 then s[i] else '.' {
      PadTail(mask, i);
      PadTail(first, i);
    }
    if forall i :: 8 <= i < |mask| ==> mask[i] == '.' {
      assert Pad(first) == s;
    } else {
      var i :| 8 <= i < |mask| && mask[i] != '.';
      assert Pad(first)[i] != s[i];
    }
  }
}
