// Positions in sequences without repetition.
module Sequences {
  import opened Basics

  function Find(s: seq<nat>, x: nat): (i: nat)
    requires x in s
    ensures i < |s| && s[i] == x
  {
    if s[0] == x then 0 else 1 + Find(s[1..], x)
  }

  lemma FindAt(s: seq<nat>, i: nat)
    requires Distinct(s) && i < |s|
    ensures Find(s, s[i]) == i
  {
  }
}
