/** Roll-number range expansion, shared by both servers: the prefix is the
    start roll without its last four characters, the bounds are parseInt of
    the last four characters of each roll, and the loop
    `for (let i = startNum; i <= endNum; i++)` visits
    prefix + i.toString().padStart(4, '0') for every i in between. */
module Rolls {
  import opened Optional
  import opened JsString

  /** The only roll length the servers send to the portal. */
  const RollLength: nat := 10

  /** startRoll.slice(0, -4), the prefix in server.cjs. */
  function PrefixOf(startRoll: string): (p: string)
    ensures p == startRoll[..if |startRoll| < 4 then 0 else |startRoll| - 4]
  {
    Slice(startRoll, 0, -4)
  }

  /** startRoll.slice(0, startRoll.length - 4), the prefix in
      pdf-backend-master/server.cjs. */
  function BackendPrefixOf(startRoll: string): string {
    Slice(startRoll, 0, |startRoll| - 4)
  }

  /** parseInt(roll.slice(-4)): the sequence number a roll carries. */
  function SeqNumber(roll: string): Option<int> {
    ParseInt(LastFour(roll))
  }

  /** `${prefix}${i.toString().padStart(4, '0')}` */
  function RollId(prefix: string, i: int): string {
    prefix + PadStart4(NumberToString(i))
  }

  /** The rolls the loop visits for counters lo..hi, in loop order. */
  function Range(prefix: string, lo: int, hi: int): seq<string> {
    seq(if hi < lo then 0 else hi - lo + 1, k => RollId(prefix, lo + k))
  }

  /** How many times the loop body runs: none when either bound is NaN,
      since every comparison with NaN is false. */
  function LoopCount(startNum: Option<int>, endNum: Option<int>): nat {
    if startNum.None? || endNum.None? || endNum.value < startNum.value then 0
    else endNum.value - startNum.value + 1
  }

  /** The rolls generated from a prefix and two parsed bounds. */
  function Expand(prefix: string, startNum: Option<int>, endNum: Option<int>): (rolls: seq<string>)
    ensures |rolls| == LoopCount(startNum, endNum)
    ensures forall k {:trigger rolls[k]} :: 0 <= k < |rolls| ==> rolls[k] == RollId(prefix, startNum.value + k)
  {
    if startNum.Some? && endNum.Some? then Range(prefix, startNum.value, endNum.value) else []
  }

  /** The rolls server.cjs generates for a request. */
  function GeneratedRolls(startRoll: string, endRoll: string): seq<string> {
    Expand(PrefixOf(startRoll), SeqNumber(startRoll), SeqNumber(endRoll))
  }

  /** The rolls pdf-backend-master/server.cjs generates for a request. */
  function BackendGeneratedRolls(startRoll: string, endRoll: string): seq<string> {
    Expand(BackendPrefixOf(startRoll), SeqNumber(startRoll), SeqNumber(endRoll))
  }

  // ---------------------------------------------------------------------
  // Lemmas

  /** The two servers derive the same prefix except from a three-character
      start roll, where slice(0, -1) keeps two characters and slice(0, -4)
      keeps none. */
  lemma PrefixDerivationsAgree(startRoll: string)
    ensures PrefixOf(startRoll) == BackendPrefixOf(startRoll) <==> |startRoll| != 3
  {
    if |startRoll| == 3 {
      assert |BackendPrefixOf(startRoll)| == 2;
    }
  }

  /** Different counters give different rolls, whatever the prefix: the
      padding can be undone and number printing is injective. */
  lemma RollIdInjective(prefix: string, a: int, b: int)
    requires RollId(prefix, a) == RollId(prefix, b)
    ensures a == b
  {
    var pa, pb := PadStart4(NumberToString(a)), PadStart4(NumberToString(b));
    assert pa == RollId(prefix, a)[|prefix|..];
    assert pb == RollId(prefix, b)[|prefix|..];
    StripZerosUnpads(a);
    StripZerosUnpads(b);
    NumberToStringInjective(a, b);
  }

  lemma RollIdsDiffer(prefix: string, a: int, b: int)
    requires a != b
    ensures RollId(prefix, a) != RollId(prefix, b)
  {
    if RollId(prefix, a) == RollId(prefix, b) {
      RollIdInjective(prefix, a, b);
    }
  }

  lemma ExpandedRollsDiffer(prefix: string, startNum: Option<int>, endNum: Option<int>, j: int, k: int)
    requires 0 <= j < k < |Expand(prefix, startNum, endNum)|
    ensures Expand(prefix, startNum, endNum)[j] != Expand(prefix, startNum, endNum)[k]
  {
    RollIdsDiffer(prefix, startNum.value + j, startNum.value + k);
  }

  /** A generated batch never holds the same roll twice. */
  lemma ExpandDistinct(prefix: string, startNum: Option<int>, endNum: Option<int>)
    ensures var rolls := Expand(prefix, startNum, endNum);
      forall j, k :: 0 <= j < k < |rolls| ==> rolls[j] != rolls[k]
  {
    var rolls := Expand(prefix, startNum, endNum);
    forall j, k | 0 <= j < k < |rolls|
      ensures rolls[j] != rolls[k]
    {
      ExpandedRollsDiffer(prefix, startNum, endNum, j, k);
    }
  }

  /** Counters in [-999, 9999] pad to exactly four characters. */
  lemma RollIdLength(prefix: string, i: int)
    requires -999 <= i <= 9999
    ensures |RollId(prefix, i)| == |prefix| + 4
  {
    NumberToStringShort(i);
  }

  /** For counters in [-999, 9999], slice(-4) recovers the padded counter
      and slice(0, -4) recovers the prefix. */
  lemma RollIdSplits(prefix: string, i: int)
    requires -999 <= i <= 9999
    ensures LastFour(RollId(prefix, i)) == PadStart4(NumberToString(i))
    ensures PrefixOf(RollId(prefix, i)) == prefix
  {
    RollIdLength(prefix, i);
  }

  /** A counter in [0, 9999] reads back from its roll: the last four
      characters parse to it and the prefix is what slice(0, -4) recovers. */
  lemma RollIdRoundTrip(prefix: string, i: int)
    requires 0 <= i <= 9999
    ensures SeqNumber(RollId(prefix, i)) == Some(i)
    ensures PrefixOf(RollId(prefix, i)) == prefix
  {
    RollIdSplits(prefix, i);
    ParseIntOfPadded(i);
  }

  /** From a ten-character start roll, every generated roll has length ten:
      four characters parse to a number in [-999, 9999], and every counter
      between two such numbers pads to four characters after the six-character
      prefix. So the length guard only fires for start rolls of another length. */
  lemma GeneratedRollsHaveRollLength(startRoll: string, endRoll: string)
    requires |startRoll| == RollLength
    ensures forall roll :: roll in GeneratedRolls(startRoll, endRoll) ==> |roll| == RollLength
    ensures forall roll :: roll in BackendGeneratedRolls(startRoll, endRoll) ==> |roll| == RollLength
  {
    var s, e := SeqNumber(startRoll), SeqNumber(endRoll);
    assert PrefixOf(startRoll) == BackendPrefixOf(startRoll);
    var rolls := GeneratedRolls(startRoll, endRoll);
    if |rolls| > 0 {
      ParseIntShortBound(LastFour(startRoll));
      ParseIntShortBound(LastFour(endRoll));
      forall roll | roll in rolls
        ensures |roll| == RollLength
      {
        var k :| 0 <= k < |rolls| && rolls[k] == roll;
        RollIdLength(PrefixOf(startRoll), s.value + k);
      }
    }
  }

  /** With counters in [0, 9999] the generated rolls carry strictly
      increasing sequence numbers, start first and end last. */
  lemma ExpandAscending(prefix: string, lo: int, hi: int)
    requires 0 <= lo && hi <= 9999
    ensures var rolls := Expand(prefix, Some(lo), Some(hi));
      && (forall k :: 0 <= k < |rolls| ==> SeqNumber(rolls[k]) == Some(lo + k))
      && (forall j, k :: 0 <= j < k < |rolls| ==> SeqNumber(rolls[j]).value < SeqNumber(rolls[k]).value)
  {
    var rolls := Expand(prefix, Some(lo), Some(hi));
    forall k | 0 <= k < |rolls|
      ensures SeqNumber(rolls[k]) == Some(lo + k)
    {
      RollIdRoundTrip(prefix, lo + k);
    }
  }
}
