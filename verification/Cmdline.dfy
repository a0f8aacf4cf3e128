/**
 * Tokens of a command line (dpdk-2.0.0/lib/librte_cmdline/cmdline_parse.c). The end of the
 * sequence stands for the terminator of the C string.
 */
module Cmdline {

  /** cmdline_isendoftoken, apart from the terminator. */
  predicate EndsToken(c: char) {
    c == '#' || c == ' ' || c == '\t' || c == '\n' || c == '\r'
  }

  /** The length of the token that `buf` begins with. */
  function TokenLength(buf: string): (n: nat)
    ensures n <= |buf| && (n < |buf| ==> EndsToken(buf[n]))
    ensures forall i :: 0 <= i < n ==> !EndsToken(buf[i])
  {
    if buf == "" || EndsToken(buf[0]) then 0 else 1 + TokenLength(buf[1..])
  }

  /** A text that can be one token. */
  predicate Plain(s: string) {
    forall i :: 0 <= i < |s| ==> !EndsToken(s[i])
  }

  lemma {:induction false} TokenOf(s: string, rest: string)
    requires Plain(s) && (rest != "" ==> EndsToken(rest[0]))
    ensures TokenLength(s + rest) == |s|
  {
    if s != "" {
      TokenOf(s[1..], rest);
      assert (s + rest)[1..] == s[1..] + rest;
    } else {
      assert s + rest == rest;
    }
  }
}
