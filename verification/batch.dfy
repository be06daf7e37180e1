/** Per-roll outcome accounting, the loop both servers run over the
    generated rolls. A roll whose length is not RollLength is listed as not
    found without touching the browser. Every other roll is looked up once;
    the browser's answer is an abstract outcome, and a server-specific rule
    says which outcomes list the roll as not found. A roll that is not listed
    counts as downloaded. */
module Batch {
  import opened Optional
  import opened Seqs
  import opened Rolls

  /** What one submission of a roll number reports once the settle delay
      has passed: the portal raised an alert dialog, a page operation threw,
      or neither happened and a download was started. */
  datatype Fetch = Dialog | Threw | Completed

  /** Whether the browser is asked about a roll at all. */
  predicate HasRollLength(roll: string) {
    |roll| == RollLength
  }

  /** The roll ends up in notFound: rejected by the length guard, or looked
      up with an outcome the server counts as a failure. */
  predicate Listed<O>(roll: string, outcome: string -> O, failed: O -> bool) {
    !HasRollLength(roll) || failed(outcome(roll))
  }

  function ListedBy<O>(outcome: string -> O, failed: O -> bool): string -> bool {
    roll => Listed(roll, outcome, failed)
  }

  /** notFound as the loop leaves it. */
  function NotFound<O>(rolls: seq<string>, outcome: string -> O, failed: O -> bool): seq<string> {
    Filter(rolls, ListedBy(outcome, failed))
  }

  /** The rolls whose download was started. */
  function Succeeded<O>(rolls: seq<string>, outcome: string -> O, failed: O -> bool): seq<string> {
    Filter(rolls, Not(ListedBy(outcome, failed)))
  }

  /** The rolls the browser is asked about, in loop order. */
  function LookedUp(rolls: seq<string>): seq<string> {
    Filter(rolls, HasRollLength)
  }

  /** The loop `for (let i = startNum; i <= endNum; i++)` with its body:
      build the roll, list it if its length is wrong, otherwise look it up
      and list it if the outcome is a failure. */
  method RunBatch<O>(prefix: string, startNum: Option<int>, endNum: Option<int>,
                     outcome: string -> O, failed: O -> bool)
    returns (lookedUp: seq<string>, notFound: seq<string>, succeeded: seq<string>)
    ensures var rolls := Expand(prefix, startNum, endNum);
      && notFound == NotFound(rolls, outcome, failed)
      && succeeded == Succeeded(rolls, outcome, failed)
      && lookedUp == LookedUp(rolls)
  {
    lookedUp, notFound, succeeded := [], [], [];
    if startNum.None? || endNum.None? {
      return;
    }
    var lo, hi := startNum.value, endNum.value;
    var i := lo;
    while i <= hi
      invariant lo <= i && (i <= hi + 1 || i == lo)
      invariant notFound == NotFound(Range(prefix, lo, i - 1), outcome, failed)
      invariant succeeded == Succeeded(Range(prefix, lo, i - 1), outcome, failed)
      invariant lookedUp == LookedUp(Range(prefix, lo, i - 1))
      decreases hi - i
    {
      var roll := RollId(prefix, i);
      assert Range(prefix, lo, i) == Range(prefix, lo, i - 1) + [roll];
      FilterSnoc(Range(prefix, lo, i - 1), roll, ListedBy(outcome, failed));
      FilterSnoc(Range(prefix, lo, i - 1), roll, Not(ListedBy(outcome, failed)));
      FilterSnoc(Range(prefix, lo, i - 1), roll, HasRollLength);
      if |roll| != RollLength {
        notFound := notFound + [roll];
      } else {
        lookedUp := lookedUp + [roll];
        if failed(outcome(roll)) {
          notFound := notFound + [roll];
        } else {
          succeeded := succeeded + [roll];
        }
      }
      i := i + 1;
    }
    assert Range(prefix, lo, i - 1) == Expand(prefix, startNum, endNum);
  }

  // ---------------------------------------------------------------------
  // Lemmas

  /** A roll is listed exactly when it was generated and either failed the
      length guard or got a failing outcome; it is counted as downloaded
      exactly when it was generated, passed the guard and did not fail. */
  lemma ListedIff<O>(rolls: seq<string>, outcome: string -> O, failed: O -> bool, roll: string)
    ensures roll in NotFound(rolls, outcome, failed) <==>
      roll in rolls && (|roll| != RollLength || failed(outcome(roll)))
    ensures roll in Succeeded(rolls, outcome, failed) <==>
      roll in rolls && |roll| == RollLength && !failed(outcome(roll))
  {
    FilterMembership(rolls, ListedBy(outcome, failed), roll);
    FilterMembership(rolls, Not(ListedBy(outcome, failed)), roll);
  }

  /** The browser is asked about exactly the generated rolls of length
      RollLength; a roll of any other length never reaches it. */
  lemma LookedUpIff(rolls: seq<string>, roll: string)
    ensures roll in LookedUp(rolls) <==> roll in rolls && |roll| == RollLength
  {
    FilterMembership(rolls, HasRollLength, roll);
  }

  /** notFound and the downloaded rolls split the batch: every generated roll
      lands in exactly one of them, so neither is longer than the batch. */
  lemma OutcomesPartition<O>(rolls: seq<string>, outcome: string -> O, failed: O -> bool)
    ensures multiset(NotFound(rolls, outcome, failed)) + multiset(Succeeded(rolls, outcome, failed)) == multiset(rolls)
    ensures |NotFound(rolls, outcome, failed)| + |Succeeded(rolls, outcome, failed)| == |rolls|
  {
    FilterPartition(rolls, ListedBy(outcome, failed));
  }

  /** A generated batch lists no roll twice in notFound. */
  lemma NotFoundDistinct<O>(prefix: string, startNum: Option<int>, endNum: Option<int>,
                            outcome: string -> O, failed: O -> bool)
    ensures var notFound := NotFound(Expand(prefix, startNum, endNum), outcome, failed);
      forall j, k :: 0 <= j < k < |notFound| ==> notFound[j] != notFound[k]
  {
    var rolls := Expand(prefix, startNum, endNum);
    var differ := (a: string, b: string) => a != b;
    ExpandDistinct(prefix, startNum, endNum);
    assert Chained(rolls, differ);
    FilterKeepsOrder(rolls, ListedBy(outcome, failed), differ);
    var notFound := NotFound(rolls, outcome, failed);
    assert Chained(notFound, differ);
    forall j, k | 0 <= j < k < |notFound|
      ensures notFound[j] != notFound[k]
    {
      assert differ(notFound[j], notFound[k]);
    }
  }

  /** Sequence-number order: rolls earlier in the list carry smaller numbers. */
  predicate NumberedBefore(a: string, b: string) {
    SeqNumber(a).Some? && SeqNumber(b).Some? && SeqNumber(a).value < SeqNumber(b).value
  }

  /** With counters in [0, 9999], notFound lists its rolls in strictly
      ascending sequence-number order. */
  lemma NotFoundAscending<O>(prefix: string, lo: int, hi: int, outcome: string -> O, failed: O -> bool)
    requires 0 <= lo && hi <= 9999
    ensures var notFound := NotFound(Expand(prefix, Some(lo), Some(hi)), outcome, failed);
      forall j, k :: 0 <= j < k < |notFound| ==> NumberedBefore(notFound[j], notFound[k])
  {
    var rolls := Expand(prefix, Some(lo), Some(hi));
    ExpandAscending(prefix, lo, hi);
    assert Chained(rolls, NumberedBefore);
    FilterKeepsOrder(rolls, ListedBy(outcome, failed), NumberedBefore);
  }
}
