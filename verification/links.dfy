/** Link selection inside the portal page: both servers walk
    `document.querySelectorAll('a')` in document order and click the first
    anchor whose lower-cased text contains every lower-cased needle. The root
    server searches with the semester label and the branch, the backend with
    the result name. */
module Links {
  import opened Optional
  import opened JsString

  /** Every needle occurs, case-insensitively, in the anchor text. */
  predicate Matches(text: string, needles: seq<string>) {
    forall n :: n in needles ==> Includes(ToLower(text), ToLower(n))
  }

  /** The index of the anchor that gets clicked, or None when the loop
      finishes without a match and nothing is clicked. */
  function FindLink(anchors: seq<string>, needles: seq<string>): (r: Option<nat>)
    ensures r.Some? ==> r.value < |anchors|
    decreases |anchors|
  {
    if anchors == [] then None
    else if Matches(anchors[0], needles) then Some(0)
    else match FindLink(anchors[1..], needles)
      case None => None
      case Some(i) => Some(i + 1)
  }

  /** FindLink returns the first matching anchor, and None exactly when no
      anchor matches. */
  lemma {:induction false} FindLinkSpec(anchors: seq<string>, needles: seq<string>)
    ensures var r := FindLink(anchors, needles);
      && (r.Some? ==> Matches(anchors[r.value], needles))
      && (r.Some? ==> forall i :: 0 <= i < r.value ==> !Matches(anchors[i], needles))
      && (r.None? <==> forall i :: 0 <= i < |anchors| ==> !Matches(anchors[i], needles))
    decreases |anchors|
  {
    if anchors != [] && !Matches(anchors[0], needles) {
      FindLinkSpec(anchors[1..], needles);
      var r := FindLink(anchors[1..], needles);
      if r.Some? {
        assert anchors[1..][r.value] == anchors[r.value + 1];
        forall i | 0 <= i < r.value + 1
          ensures !Matches(anchors[i], needles)
        {
          if i > 0 {
            assert anchors[i] == anchors[1..][i - 1];
          }
        }
      } else {
        forall i | 0 <= i < |anchors|
          ensures !Matches(anchors[i], needles)
        {
          if i > 0 {
            assert anchors[i] == anchors[1..][i - 1];
          }
        }
      }
    }
  }

  /** Matching ignores the ASCII case of the anchor text: an anchor matches
      exactly when its lower-cased text does, so two anchor texts that differ
      only in the case of their letters match the same needles. */
  lemma MatchesIgnoresCase(text: string, other: string, needles: seq<string>)
    requires ToLower(other) == ToLower(text)
    ensures Matches(ToLower(text), needles) <==> Matches(text, needles)
    ensures Matches(other, needles) <==> Matches(text, needles)
  {
    ToLowerSpec(text);
  }

  /** An anchor matches when its lower-cased text holds each lower-cased
      needle at some position. */
  lemma MatchesIffOccurs(text: string, needles: seq<string>)
    ensures Matches(text, needles) <==>
      forall n :: n in needles ==> exists i :: OccursAt(ToLower(text), ToLower(n), i)
  {
    forall n | n in needles {
      IncludesIffOccurs(ToLower(text), ToLower(n));
    }
  }
}
