/** The POST `/` handler of pdf-backend-master/server.cjs: it validates the
    three fields, then for every generated roll of the right length opens
    the portal afresh, clicks the result link named by resultName, submits
    the roll, and finally merges the downloads. The portal and the download
    folder are inputs. */
module BackendServer {
  import opened Optional
  import opened JsString
  import opened Rolls
  import opened Batch
  import opened Links
  import opened Merge
  import opened Responses

  datatype BackendRequest = BackendRequest(startRoll: Option<string>, endRoll: Option<string>, resultName: Option<string>)

  /** What the browser meets for one roll. PageThrew: navigating to the portal
      or running the link search throws. Landed: the portal lists `anchors`,
      and `submit` is what submitting the roll would report once the result
      link is clicked. */
  datatype Lookup = PageThrew | Landed(anchors: seq<string>, submit: Fetch)

  /** The merged document's URL in a successful reply, as written. */
  const DownloadURL: string := "pdf-backend-master/merged/merged_result.pdf"

  /** A roll is listed when the page throws, when no anchor mentions the
      result name (only this roll is affected), or when the submission raises
      a dialog or throws. */
  predicate BackendFailed(resultName: string, l: Lookup)
    ensures BackendFailed(resultName, l) <==>
      || l.PageThrew?
      || (forall i :: 0 <= i < |l.anchors| ==> !Matches(l.anchors[i], [resultName]))
      || l.submit != Completed
  {
    match l
    case PageThrew => true
    case Landed(anchors, submit) =>
      FindLinkSpec(anchors, [resultName]);
      FindLink(anchors, [resultName]).None? || submit != Completed
  }

  function FailedFor(resultName: string): Lookup -> bool {
    l => BackendFailed(resultName, l)
  }

  /** The whole handler. A merge that throws is answered with 500 and the
      rolls not found. Cleaning the download folder afterwards is outside
      every try block: if it fails, no reply is sent. */
  function HandleBackend<P>(req: BackendRequest, lookup: string -> Lookup,
                            listing: seq<string>, load: string -> Option<seq<P>>, cleaned: bool): (h: Handled)
    ensures h.response == MissingFields <==>
      !Truthy(req.startRoll) || !Truthy(req.endRoll) || !Truthy(req.resultName)
    ensures h.response == MissingFields <==> !h.launched
    ensures !h.launched ==> h.lookedUp == []
  {
    if !Truthy(req.startRoll) || !Truthy(req.endRoll) || !Truthy(req.resultName) then
      Handled(MissingFields, false, [])
    else
      var rolls := BackendGeneratedRolls(req.startRoll.value, req.endRoll.value);
      var notFound := NotFound(rolls, lookup, FailedFor(req.resultName.value));
      var lookedUp := LookedUp(rolls);
      if MergePdfs(listing, load).Aborted? then
        Handled(MergeFailed(notFound), true, lookedUp)
      else if !cleaned then
        Handled(NoReply, true, lookedUp)
      else
        Handled(Merged(DownloadURL, notFound), true, lookedUp)
  }

  // ---------------------------------------------------------------------
  // Lemmas

  /** Once the fields are present, every generated roll of the right length
      is looked up, whatever happened to the rolls before it: a missing result
      link or a failing roll never ends the batch early. A roll is reported
      not found exactly when it was rejected by the length guard, the page
      threw, no anchor mentions the result name, or the submission raised a
      dialog or threw. The merge failure reply carries the same list. */
  lemma BackendNotFoundIff<P>(req: BackendRequest, lookup: string -> Lookup,
                              listing: seq<string>, load: string -> Option<seq<P>>, cleaned: bool, roll: string)
    requires Truthy(req.startRoll) && Truthy(req.endRoll) && Truthy(req.resultName)
    ensures var h := HandleBackend(req, lookup, listing, load, cleaned);
      var rolls := BackendGeneratedRolls(req.startRoll.value, req.endRoll.value);
      && (roll in h.lookedUp <==> roll in rolls && |roll| == RollLength)
      && (h.response.Merged? || h.response.MergeFailed? ==>
            (roll in h.response.notFound <==>
               roll in rolls &&
               (|roll| != RollLength || lookup(roll).PageThrew? ||
                FindLink(lookup(roll).anchors, [req.resultName.value]).None? ||
                lookup(roll).submit != Completed)))
  {
    var rolls := BackendGeneratedRolls(req.startRoll.value, req.endRoll.value);
    ListedIff(rolls, lookup, FailedFor(req.resultName.value), roll);
    LookedUpIff(rolls, roll);
  }

  /** The reply is a merge failure exactly when some ".pdf" entry fails to
      load, and a success exactly when every one loads and the folder is
      cleaned; a success names the fixed download URL. */
  lemma BackendReplyIff<P>(req: BackendRequest, lookup: string -> Lookup,
                           listing: seq<string>, load: string -> Option<seq<P>>, cleaned: bool)
    requires Truthy(req.startRoll) && Truthy(req.endRoll) && Truthy(req.resultName)
    ensures var h := HandleBackend(req, lookup, listing, load, cleaned);
      && (h.response.MergeFailed? <==> exists f :: f in listing && EndsWith(f, ".pdf") && load(f).None?)
      && (h.response.Merged? <==> cleaned && forall f :: f in listing && EndsWith(f, ".pdf") ==> load(f).Some?)
      && (h.response.Merged? ==> h.response.downloadURL == DownloadURL)
  {
    var files := PdfEntries(listing);
    MergeWrittenIff(files, load);
    if !AllLoad(files, load) {
      var j :| 0 <= j < |files| && load(files[j]).None?;
      PdfEntriesIff(listing, files[j]);
    } else {
      forall f | f in listing && EndsWith(f, ".pdf")
        ensures load(f).Some?
      {
        PdfEntriesIff(listing, f);
      }
    }
  }

  /** The reported list never holds a roll twice, lists rolls in ascending
      sequence-number order when the counters lie in [0, 9999], and together
      with the downloaded rolls it accounts for every generated roll once. */
  lemma BackendNotFoundOrdered<P>(req: BackendRequest, lookup: string -> Lookup,
                                  listing: seq<string>, load: string -> Option<seq<P>>, cleaned: bool)
    requires Truthy(req.startRoll) && Truthy(req.endRoll) && Truthy(req.resultName)
    ensures var r := HandleBackend(req, lookup, listing, load, cleaned).response;
      r.Merged? || r.MergeFailed? ==>
        forall j, k :: 0 <= j < k < |r.notFound| ==> r.notFound[j] != r.notFound[k]
    ensures var r := HandleBackend(req, lookup, listing, load, cleaned).response;
      var lo, hi := SeqNumber(req.startRoll.value), SeqNumber(req.endRoll.value);
      (r.Merged? || r.MergeFailed?) && lo.Some? && hi.Some? && 0 <= lo.value && hi.value <= 9999 ==>
        forall j, k :: 0 <= j < k < |r.notFound| ==> NumberedBefore(r.notFound[j], r.notFound[k])
    ensures var r := HandleBackend(req, lookup, listing, load, cleaned).response;
      var rolls := BackendGeneratedRolls(req.startRoll.value, req.endRoll.value);
      var failed := FailedFor(req.resultName.value);
      r.Merged? || r.MergeFailed? ==>
        multiset(r.notFound) + multiset(Succeeded(rolls, lookup, failed)) == multiset(rolls)
  {
    var s, e := req.startRoll.value, req.endRoll.value;
    var failed := FailedFor(req.resultName.value);
    NotFoundDistinct(BackendPrefixOf(s), SeqNumber(s), SeqNumber(e), lookup, failed);
    var lo, hi := SeqNumber(s), SeqNumber(e);
    if lo.Some? && hi.Some? && 0 <= lo.value && hi.value <= 9999 {
      NotFoundAscending(BackendPrefixOf(s), lo.value, hi.value, lookup, failed);
    }
    OutcomesPartition(BackendGeneratedRolls(s, e), lookup, failed);
  }
}
