/** The submit handler of pdf-frontend-main/script.js: trim the three
    inputs, run the guards in order, post the request to the backend, and
    render the reply. */
module Frontend {
  import opened Optional
  import opened JsString
  import opened Seqs
  import opened Rolls
  import opened Batch
  import opened Responses
  import BackendServer

  /** The first failing guard, which decides the alert shown, or the
      request that is posted when every guard passes. */
  datatype Verdict =
    /** "Please fill all fields." */
    | FillAllFields
    /** "Roll numbers must be exactly 10 characters long." */
    | WrongLength
    /** "First 6 characters of start and end roll numbers must match." */
    | PrefixMismatch
    /** "Last 4 characters of roll numbers must be numeric and valid." */
    | NotNumeric
    /** "Roll number range cannot exceed 200." */
    | RangeTooLarge
    | Submit(startRoll: string, endRoll: string, resultName: string, total: int)

  /** The largest range the form accepts. */
  const MaxRange: int := 200

  /** The guards, in source order, on the raw input values. */
  function Validate(startInput: string, endInput: string, nameInput: string): (v: Verdict)
    ensures v.Submit? ==> 1 <= v.total <= MaxRange
    ensures v.Submit? ==> |v.startRoll| == RollLength && |v.endRoll| == RollLength && v.resultName != []
    ensures v.Submit? ==> v.startRoll[..6] == v.endRoll[..6]
  {
    var startRoll, endRoll, resultName := Trim(startInput), Trim(endInput), Trim(nameInput);
    if startRoll == [] || endRoll == [] || resultName == [] then FillAllFields
    else if |startRoll| != 10 || |endRoll| != 10 then WrongLength
    else if Slice(startRoll, 0, 6) != Slice(endRoll, 0, 6) then PrefixMismatch
    else
      var rollStart, rollEnd := SeqNumber(startRoll), SeqNumber(endRoll);
      if rollStart.None? || rollEnd.None? || rollEnd.value - rollStart.value + 1 <= 0 then NotNumeric
      else
        var total := rollEnd.value - rollStart.value + 1;
        if total > MaxRange then RangeTooLarge
        else Submit(startRoll, endRoll, resultName, total)
  }

  /** What the page shows once the request settles. Pending: the backend
      never answers. FetchFailed: the reply is not ok. Done: the progress
      text, with the preview URL when the preview is shown. */
  datatype Screen = Pending | FetchFailed | Done(foundCount: int, notFoundCount: nat, preview: Option<string>)

  /** Render a backend reply for a request of `total` rolls. */
  function Render(total: int, response: Response): (screen: Screen)
    ensures screen.Done? <==> IsOk(response)
    ensures screen.Done? ==> screen.foundCount + screen.notFoundCount == total
    ensures screen.Done? ==>
      (screen.preview.Some? <==> screen.foundCount > 0 && response.downloadURL != [])
    ensures screen.Done? && screen.preview.Some? ==> screen.preview.value == response.downloadURL
  {
    if response.NoReply? then Pending
    else if !IsOk(response) then FetchFailed
    else
      var foundCount := total - |response.notFound|;
      var preview := if foundCount > 0 && response.downloadURL != [] then Some(response.downloadURL) else None;
      Done(foundCount, |response.notFound|, preview)
  }

  // ---------------------------------------------------------------------
  // Lemmas

  /** Each alert fires exactly when its guard fails and every earlier guard
      passed, so the first failing guard decides the message. */
  lemma FirstFailingGuard(startInput: string, endInput: string, nameInput: string)
    ensures var v := Validate(startInput, endInput, nameInput);
      var s, e, n := Trim(startInput), Trim(endInput), Trim(nameInput);
      var a, b := SeqNumber(s), SeqNumber(e);
      && (v == FillAllFields <==> s == [] || e == [] || n == [])
      && (v == WrongLength <==> s != [] && e != [] && n != [] && (|s| != 10 || |e| != 10))
      && (v == PrefixMismatch <==> s != [] && e != [] && n != [] && |s| == 10 && |e| == 10 && s[..6] != e[..6])
      && (v == NotNumeric <==>
            (s != [] && e != [] && n != [] && |s| == 10 && |e| == 10 && s[..6] == e[..6]
             && (a.None? || b.None? || b.value < a.value)))
      && (v == RangeTooLarge <==>
            (s != [] && e != [] && n != [] && |s| == 10 && |e| == 10 && s[..6] == e[..6]
             && a.Some? && b.Some? && b.value - a.value + 1 > MaxRange))
      && (v.Submit? <==>
            (s != [] && e != [] && n != [] && |s| == 10 && |e| == 10 && s[..6] == e[..6]
             && a.Some? && b.Some? && 1 <= b.value - a.value + 1 <= MaxRange))
  {
  }

  /** An accepted form posts the trimmed values, and the range size it
      computed is exactly the number of rolls the backend will generate;
      they all have the roll length, so every one reaches the browser. */
  lemma SubmitMatchesBackendBatch(startInput: string, endInput: string, nameInput: string)
    requires Validate(startInput, endInput, nameInput).Submit?
    ensures var v := Validate(startInput, endInput, nameInput);
      var rolls := BackendGeneratedRolls(v.startRoll, v.endRoll);
      && v.startRoll == Trim(startInput) && v.endRoll == Trim(endInput) && v.resultName == Trim(nameInput)
      && |rolls| == v.total
      && LookedUp(rolls) == rolls
  {
    var v := Validate(startInput, endInput, nameInput);
    SubmitTotal(startInput, endInput, nameInput);
    AllRollsLookedUp(v.startRoll, v.endRoll);
  }

  /** The accepted values are the trimmed inputs, and the total is the
      backend's loop count for them. */
  lemma SubmitTotal(startInput: string, endInput: string, nameInput: string)
    requires Validate(startInput, endInput, nameInput).Submit?
    ensures var v := Validate(startInput, endInput, nameInput);
      && v.startRoll == Trim(startInput) && v.endRoll == Trim(endInput) && v.resultName == Trim(nameInput)
      && LoopCount(SeqNumber(v.startRoll), SeqNumber(v.endRoll)) == v.total
  {
  }

  /** From a start roll of the roll length, the browser is asked about every
      roll the backend generates. */
  lemma AllRollsLookedUp(startRoll: string, endRoll: string)
    requires |startRoll| == RollLength
    ensures LookedUp(BackendGeneratedRolls(startRoll, endRoll)) == BackendGeneratedRolls(startRoll, endRoll)
  {
    var rolls := BackendGeneratedRolls(startRoll, endRoll);
    GeneratedRollsHaveRollLength(startRoll, endRoll);
    assert forall j :: 0 <= j < |rolls| ==> HasRollLength(rolls[j]) by {
      forall j | 0 <= j < |rolls|
        ensures HasRollLength(rolls[j])
      {
        assert rolls[j] in rolls;
      }
    }
    FilterKeepsAll(rolls, HasRollLength);
  }

  /** For a backend batch of `total` rolls answered with a success, the
      page's found count is the number of rolls whose download was started,
      and the preview is shown exactly when there is at least one. */
  lemma FoundCountOfBatch<P>(startRoll: string, endRoll: string, resultName: string, total: int,
                             lookup: string -> BackendServer.Lookup, listing: seq<string>,
                             load: string -> Option<seq<P>>, cleaned: bool)
    requires startRoll != [] && endRoll != [] && resultName != []
    requires LoopCount(SeqNumber(startRoll), SeqNumber(endRoll)) == total
    ensures var req := BackendServer.BackendRequest(Some(startRoll), Some(endRoll), Some(resultName));
      var response := BackendServer.HandleBackend(req, lookup, listing, load, cleaned).response;
      var screen := Render(total, response);
      var downloaded := Succeeded(BackendGeneratedRolls(startRoll, endRoll), lookup, BackendServer.FailedFor(resultName));
      response.Merged? ==>
      && screen.Done?
      && screen.foundCount == |downloaded|
      && (screen.preview.Some? <==> |downloaded| > 0)
  {
    var rolls := BackendGeneratedRolls(startRoll, endRoll);
    OutcomesPartition(rolls, lookup, BackendServer.FailedFor(resultName));
  }

  /** End to end: for an accepted form whose request the backend answers with
      a success, the page's found count is the number of rolls whose download
      was started, hence never negative, and the preview is shown exactly when
      at least one download was started. */
  lemma FoundCountIsDownloads<P>(startInput: string, endInput: string, nameInput: string,
                                 lookup: string -> BackendServer.Lookup, listing: seq<string>,
                                 load: string -> Option<seq<P>>, cleaned: bool)
    requires Validate(startInput, endInput, nameInput).Submit?
    ensures var v := Validate(startInput, endInput, nameInput);
      var req := BackendServer.BackendRequest(Some(v.startRoll), Some(v.endRoll), Some(v.resultName));
      var response := BackendServer.HandleBackend(req, lookup, listing, load, cleaned).response;
      var screen := Render(v.total, response);
      var downloaded := Succeeded(BackendGeneratedRolls(v.startRoll, v.endRoll), lookup, BackendServer.FailedFor(v.resultName));
      response.Merged? ==>
      && screen.Done?
      && screen.foundCount == |downloaded|
      && (screen.preview.Some? <==> |downloaded| > 0)
  {
    var v := Validate(startInput, endInput, nameInput);
    SubmitTotal(startInput, endInput, nameInput);
    FoundCountOfBatch(v.startRoll, v.endRoll, v.resultName, v.total, lookup, listing, load, cleaned);
  }
}
