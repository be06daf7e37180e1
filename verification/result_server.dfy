/** The `/result` handler of server.cjs: it validates the rolls, computes the
    semester label, opens the portal, follows the semester link and the
    branch link, runs the roll loop and merges the downloads. The portal and
    the download folder are inputs. */
module ResultServer {
  import opened Optional
  import opened JsString
  import opened Rolls
  import opened Batch
  import opened Links
  import opened Semester
  import opened Merge
  import opened Responses

  /** The JSON body; a field may be missing. */
  datatype ResultRequest = ResultRequest(
    startRoll: Option<string>, endRoll: Option<string>, academicYear: Option<string>,
    examType: Option<string>, semester: Option<string>, semesterType: Option<string>,
    branch: Option<string>)

  /** What the browser finds on the portal. Unreachable: `page.goto` throws.
      Reached: `selectors` are the selectors `page.$` finds. `anchors` are the
      anchor texts, in document order, once the semester link is clicked and
      an anchor has appeared. It is None when any of those steps throws. */
  datatype Portal = Unreachable | Reached(selectors: set<string>, anchors: Option<seq<string>>)

  /** The merged document's URL in a successful reply. */
  const DownloadURL: string := "/merged/Merged_result.pdf"

  /** A template literal prints a missing field as "undefined". */
  function Interpolate(field: Option<string>): string {
    if field.Some? then field.value else "undefined"
  }

  /** `#link${semesterType}Sem${academicYear}` */
  function SemesterSelector(req: ResultRequest): string {
    "#link" + Interpolate(req.semesterType) + "Sem" + Interpolate(req.academicYear)
  }

  /** A dialog or a thrown page operation lists the roll as not found. */
  predicate RootFailed(f: Fetch) {
    f != Completed
  }

  /** The branch link is found and clicked. The page callback reads `res`,
      which does not exist in the page, so it throws whenever no anchor
      matches. It also throws when the branch is missing. Both cases end in
      the general 500 handler, never in the 404 after the callback. */
  predicate BranchLinkClicked(anchors: seq<string>, semesterName: string, branch: Option<string>)
    ensures BranchLinkClicked(anchors, semesterName, branch) <==>
      branch.Some? && exists i :: 0 <= i < |anchors| && Matches(anchors[i], [semesterName, branch.value])
  {
    if branch.None? then false
    else
      FindLinkSpec(anchors, [semesterName, branch.value]);
      FindLink(anchors, [semesterName, branch.value]).Some?
  }

  /** The whole handler. */
  function HandleResult<P>(req: ResultRequest, portal: Portal, outcome: string -> Fetch,
                           listing: seq<string>, load: string -> Option<seq<P>>, cleaned: bool): (h: Handled)
    ensures h.response == MissingFields <==> !Truthy(req.startRoll) || !Truthy(req.endRoll)
    ensures h.response == MissingFields ==> !h.launched
    ensures !h.launched ==> h.lookedUp == []
    ensures h.lookedUp != [] ==> h.response.Merged? || h.response.MergeFailed?
  {
    if !Truthy(req.startRoll) || !Truthy(req.endRoll) then
      Handled(MissingFields, false, [])
    else
      var name := SemesterLabel(req.semester);
      if name.None? then
        Handled(NoReply, false, [])
      else if portal.Unreachable? then
        Handled(GeneralError, true, [])
      else if SemesterSelector(req) !in portal.selectors then
        Handled(NoSemesterLink(SemesterSelector(req)), true, [])
      else if portal.anchors.None? || !BranchLinkClicked(portal.anchors.value, name.value, req.branch) then
        Handled(GeneralError, true, [])
      else
        var rolls := GeneratedRolls(req.startRoll.value, req.endRoll.value);
        var notFound := NotFound(rolls, outcome, RootFailed);
        if MergePdfs(listing, load).Written? && cleaned then
          Handled(Merged(DownloadURL, notFound), true, LookedUp(rolls))
        else
          Handled(MergeFailed(notFound), true, LookedUp(rolls))
  }

  // ---------------------------------------------------------------------
  // Lemmas

  /** The 404 comes only from a missing semester link, and then no roll has
      been looked up. */
  lemma SemesterLinkMissingIff<P>(req: ResultRequest, portal: Portal, outcome: string -> Fetch,
                                  listing: seq<string>, load: string -> Option<seq<P>>, cleaned: bool)
    ensures var h := HandleResult(req, portal, outcome, listing, load, cleaned);
      h.response.NoSemesterLink? <==>
        && Truthy(req.startRoll) && Truthy(req.endRoll) && req.semester.Some?
        && portal.Reached? && SemesterSelector(req) !in portal.selectors
    ensures var h := HandleResult(req, portal, outcome, listing, load, cleaned);
      h.response.NoSemesterLink? ==> h.lookedUp == [] && h.response.selector == SemesterSelector(req)
  {
  }

  /** A missing branch never yields rolls: it always ends in the general
      500 handler, or no reply when the semester is missing as well. */
  lemma MissingBranchIsGeneralError<P>(req: ResultRequest, portal: Portal, outcome: string -> Fetch,
                                       listing: seq<string>, load: string -> Option<seq<P>>, cleaned: bool)
    requires Truthy(req.startRoll) && Truthy(req.endRoll) && req.semester.Some?
    requires portal.Reached? && SemesterSelector(req) in portal.selectors
    requires req.branch.None?
    ensures HandleResult(req, portal, outcome, listing, load, cleaned) == Handled(GeneralError, true, [])
  {
  }

  /** When the loop ran, the reply reports the generated rolls that the length
      guard rejected, or that raised a dialog or threw, in loop order. It
      reports exactly those, whether or not the merge succeeded. */
  lemma RootNotFoundIff<P>(req: ResultRequest, portal: Portal, outcome: string -> Fetch,
                           listing: seq<string>, load: string -> Option<seq<P>>, cleaned: bool, roll: string)
    requires Truthy(req.startRoll) && Truthy(req.endRoll)
    ensures var h := HandleResult(req, portal, outcome, listing, load, cleaned);
      var rolls := GeneratedRolls(req.startRoll.value, req.endRoll.value);
      h.response.Merged? || h.response.MergeFailed? ==>
      && (roll in h.response.notFound <==>
            roll in rolls && (|roll| != RollLength || outcome(roll) == Dialog || outcome(roll) == Threw))
      && (roll in h.lookedUp <==> roll in rolls && |roll| == RollLength)
      && |h.response.notFound| <= |rolls|
  {
    var rolls := GeneratedRolls(req.startRoll.value, req.endRoll.value);
    ListedIff(rolls, outcome, RootFailed, roll);
    LookedUpIff(rolls, roll);
    OutcomesPartition(rolls, outcome, RootFailed);
  }

  /** The reply is a success exactly when the merge wrote its document and
      the download folder was cleaned afterwards; it then names the fixed
      download URL. */
  lemma RootMergedIff<P>(req: ResultRequest, portal: Portal, outcome: string -> Fetch,
                         listing: seq<string>, load: string -> Option<seq<P>>, cleaned: bool)
    requires Truthy(req.startRoll) && Truthy(req.endRoll)
    ensures var h := HandleResult(req, portal, outcome, listing, load, cleaned);
      h.response.Merged? || h.response.MergeFailed? ==>
      && (h.response.Merged? <==> cleaned && forall f :: f in listing && EndsWith(f, ".pdf") ==> load(f).Some?)
      && (h.response.Merged? ==> h.response.downloadURL == DownloadURL)
  {
    var files := PdfEntries(listing);
    MergeWrittenIff(files, load);
    if !AllLoad(files, load) {
      var j :| 0 <= j < |files| && load(files[j]).None?;
      PdfEntriesIff(listing, files[j]);
    } else {
      forall f | f in listing && EndsWith(f, ".pdf")
        ensures load(f).Some?
      {
        PdfEntriesIff(listing, f);
      }
    }
  }

  /** A reported batch never lists a roll twice, and for counters within
      [0, 9999] lists them in ascending sequence-number order. */
  lemma RootNotFoundOrdered<P>(req: ResultRequest, portal: Portal, outcome: string -> Fetch,
                               listing: seq<string>, load: string -> Option<seq<P>>, cleaned: bool)
    requires Truthy(req.startRoll) && Truthy(req.endRoll)
    ensures var r := HandleResult(req, portal, outcome, listing, load, cleaned).response;
      r.Merged? || r.MergeFailed? ==>
        forall j, k :: 0 <= j < k < |r.notFound| ==> r.notFound[j] != r.notFound[k]
    ensures var r := HandleResult(req, portal, outcome, listing, load, cleaned).response;
      var lo, hi := SeqNumber(req.startRoll.value), SeqNumber(req.endRoll.value);
      (r.Merged? || r.MergeFailed?) && lo.Some? && hi.Some? && 0 <= lo.value && hi.value <= 9999 ==>
        forall j, k :: 0 <= j < k < |r.notFound| ==> NumberedBefore(r.notFound[j], r.notFound[k])
  {
    var s, e := req.startRoll.value, req.endRoll.value;
    NotFoundDistinct(PrefixOf(s), SeqNumber(s), SeqNumber(e), outcome, RootFailed);
    var lo, hi := SeqNumber(s), SeqNumber(e);
    if lo.Some? && hi.Some? && 0 <= lo.value && hi.value <= 9999 {
      NotFoundAscending(PrefixOf(s), lo.value, hi.value, outcome, RootFailed);
    }
  }

  /** Semester 5 is labelled "Vth", which also occurs inside "IVth": on a page
      that lists the fourth-semester result first, the search for the fifth
      semester clicks the fourth-semester link. */
  lemma FifthSemesterCanOpenFourth()
    ensures SemesterLabel(Some("5")) == Some("Vth")
    ensures FindLink(["IVth Sem CSE", "Vth Sem CSE"], ["Vth", "CSE"]) == Some(0)
  {
    SemesterLabelOfNumber(5);
    assert NumberToString(5) == "5";
    var text := ToLower("IVth Sem CSE");
    assert text[1] == 'v' && text[2] == 't' && text[3] == 'h';
    assert text[9] == 'c' && text[10] == 's' && text[11] == 'e';
    assert text[1..4] == "vth" && text[9..12] == "cse";
    assert OccursAt(text, ToLower("Vth"), 1);
    assert OccursAt(text, ToLower("CSE"), 9);
    MatchesIffOccurs("IVth Sem CSE", ["Vth", "CSE"]);
  }

  /** The counter 1, 2 or 3 prints as "000" followed by its digit. */
  lemma SmallRollId(i: int)
    requires 1 <= i <= 3
    ensures RollId("ABCDEF", i) == "ABCDEF000" + [DigitChar(i)]
  {
    assert NumberToString(i) == [DigitChar(i)];
    assert PadStart4([DigitChar(i)]) == "000" + [DigitChar(i)];
  }

  /** ABCDEF0001 to ABCDEF0003 expands to the three rolls in order. */
  lemma ThreeRolls()
    ensures GeneratedRolls("ABCDEF0001", "ABCDEF0003") == ["ABCDEF0001", "ABCDEF0002", "ABCDEF0003"]
  {
    var r1, r2, r3 := RollId("ABCDEF", 1), RollId("ABCDEF", 2), RollId("ABCDEF", 3);
    ThreeRollIds();
    RollIdRoundTrip("ABCDEF", 1);
    RollIdRoundTrip("ABCDEF", 3);
    assert GeneratedRolls(r1, r3) == Expand("ABCDEF", Some(1), Some(3));
    var rolls := Expand("ABCDEF", Some(1), Some(3));
    assert rolls[0] == r1 && rolls[1] == r2 && rolls[2] == r3;
    assert GeneratedRolls(r1, r3) == [r1, r2, r3];
  }

  lemma ThreeRollIds()
    ensures RollId("ABCDEF", 1) == "ABCDEF0001"
    ensures RollId("ABCDEF", 2) == "ABCDEF0002"
    ensures RollId("ABCDEF", 3) == "ABCDEF0003"
  {
    SmallRollId(1);
    SmallRollId(2);
    SmallRollId(3);
    assert DigitChar(1) == '1' && DigitChar(2) == '2' && DigitChar(3) == '3';
  }

  /** Three rolls ABCDEF0001..ABCDEF0003 where only the second raises a
      dialog: only the second is reported not found. */
  lemma ThreeRollBatch(outcome: string -> Fetch)
    requires outcome("ABCDEF0001") == Completed && outcome("ABCDEF0002") == Dialog
    requires outcome("ABCDEF0003") == Completed
    ensures NotFound(GeneratedRolls("ABCDEF0001", "ABCDEF0003"), outcome, RootFailed) == ["ABCDEF0002"]
  {
    ThreeRolls();
    var rolls: seq<string> := ["ABCDEF0001", "ABCDEF0002", "ABCDEF0003"];
    assert rolls[1..][1..] == ["ABCDEF0003"];
  }
}
