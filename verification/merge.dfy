/** mergePDFs: list a directory, keep the entries whose names end in ".pdf",
    load each in listing order and copy all of its pages, in page order, onto
    the end of one new document, then write that document. A document is
    modelled as its sequence of pages; `load` stands for reading and parsing
    one file, None when parsing throws. */
module Merge {
  import opened Optional
  import opened JsString
  import opened Seqs

  /** The merge either writes a document with these pages, or throws while
      loading the named file, before anything is written. */
  datatype MergeOutcome<P> = Written(pages: seq<P>) | Aborted(file: string)

  /** `f.endsWith('.pdf')`, case-sensitively. */
  predicate IsPdfName(name: string) {
    EndsWith(name, ".pdf")
  }

  /** The directory entries that get merged, in listing order. */
  function PdfEntries(listing: seq<string>): seq<string> {
    Filter(listing, IsPdfName)
  }

  /** One load per file, from the first entry on; the first failing load
      ends the merge. */
  function MergeFiles<P>(files: seq<string>, load: string -> Option<seq<P>>): (m: MergeOutcome<P>)
    ensures m.Aborted? ==> m.file in files && load(m.file).None?
    decreases |files|
  {
    if files == [] then Written([])
    else match load(files[0])
      case None => Aborted(files[0])
      case Some(doc) =>
        match MergeFiles(files[1..], load)
        case Aborted(f) => Aborted(f)
        case Written(rest) => Written(doc + rest)
  }

  /** mergePDFs(inputDir, outputPath) on a directory listing. */
  function MergePdfs<P>(listing: seq<string>, load: string -> Option<seq<P>>): (m: MergeOutcome<P>)
    ensures m.Aborted? ==> m.file in listing && EndsWith(m.file, ".pdf") && load(m.file).None?
  {
    var m := MergeFiles(PdfEntries(listing), load);
    if m.Aborted? then
      PdfEntriesIff(listing, m.file);
      m
    else m
  }

  // ---------------------------------------------------------------------
  // Reference definitions

  ghost predicate AllLoad<P>(files: seq<string>, load: string -> Option<seq<P>>) {
    forall j :: 0 <= j < |files| ==> load(files[j]).Some?
  }

  /** The loaded documents, one per file, in file order. */
  function Loaded<P>(files: seq<string>, load: string -> Option<seq<P>>): (docs: seq<seq<P>>)
    requires AllLoad(files, load)
  {
    seq(|files|, j requires 0 <= j < |files| && AllLoad(files, load) => load(files[j]).value)
  }

  /** The documents' pages one after another. */
  function Concat<P>(docs: seq<seq<P>>): seq<P> {
    if docs == [] then [] else docs[0] + Concat(docs[1..])
  }

  /** The sum of the documents' page counts. */
  function TotalPages<P>(docs: seq<seq<P>>): nat {
    if docs == [] then 0 else |docs[0]| + TotalPages(docs[1..])
  }

  /** The loop of mergePDFs as written: keep the entries, then for each one
      load it and append its pages; a load that throws ends the loop. */
  method MergeLoop<P>(listing: seq<string>, load: string -> Option<seq<P>>) returns (m: MergeOutcome<P>)
    ensures m == MergePdfs(listing, load)
  {
    var files := PdfEntries(listing);
    var pages: seq<P> := [];
    var i := 0;
    while i < |files|
      invariant 0 <= i <= |files|
      invariant AllLoad(files[..i], load)
      invariant pages == Concat(Loaded(files[..i], load))
    {
      var doc := load(files[i]);
      if doc.None? {
        MergeAbortsAt(files, load, i);
        return Aborted(files[i]);
      }
      assert files[..i + 1] == files[..i] + [files[i]];
      assert Loaded(files[..i + 1], load) == Loaded(files[..i], load) + [doc.value];
      ConcatSnoc(Loaded(files[..i], load), doc.value);
      pages := pages + doc.value;
      i := i + 1;
    }
    assert files[..i] == files;
    MergeWrittenIff(files, load);
    return Written(pages);
  }

  // ---------------------------------------------------------------------
  // Lemmas

  /** Only ".pdf" entries are merged, and every one of them is. */
  lemma PdfEntriesIff(listing: seq<string>, name: string)
    ensures name in PdfEntries(listing) <==> name in listing && EndsWith(name, ".pdf")
  {
    FilterMembership(listing, IsPdfName, name);
  }

  /** The merge writes exactly when every entry loads, and then the output
      is the loaded documents' pages in entry order. */
  lemma {:induction false} MergeWrittenIff<P>(files: seq<string>, load: string -> Option<seq<P>>)
    ensures MergeFiles(files, load).Written? <==> AllLoad(files, load)
    ensures AllLoad(files, load) ==> MergeFiles(files, load) == Written(Concat(Loaded(files, load)))
    decreases |files|
  {
    if files != [] {
      MergeWrittenIff(files[1..], load);
      if AllLoad(files, load) {
        assert AllLoad(files[1..], load) by {
          forall j | 0 <= j < |files[1..]|
            ensures load(files[1..][j]).Some?
          {
            assert files[1..][j] == files[j + 1];
          }
        }
        assert Loaded(files, load) == [load(files[0]).value] + Loaded(files[1..], load);
      } else if load(files[0]).Some? {
        var j :| 0 <= j < |files| && load(files[j]).None?;
        assert files[1..][j - 1] == files[j];
      }
    }
  }

  /** A failed load aborts the merge at the first entry that fails. */
  lemma {:induction false} MergeAbortsAt<P>(files: seq<string>, load: string -> Option<seq<P>>, i: nat)
    requires i < |files| && load(files[i]).None?
    requires AllLoad(files[..i], load)
    ensures MergeFiles(files, load) == Aborted(files[i])
    decreases i
  {
    if i > 0 {
      assert files[..i][0] == files[0];
      assert files[1..][..i - 1] == files[..i][1..];
      var before := files[1..][..i - 1];
      assert AllLoad(before, load) by {
        forall j | 0 <= j < |before|
          ensures load(before[j]).Some?
        {
          assert before[j] == files[..i][j + 1];
        }
      }
      MergeAbortsAt(files[1..], load, i - 1);
    }
  }

  /** Appending one more document appends its pages. */
  lemma {:induction false} ConcatSnoc<P>(docs: seq<seq<P>>, doc: seq<P>)
    ensures Concat(docs + [doc]) == Concat(docs) + doc
  {
    if docs == [] {
      assert [] + [doc] == [doc];
    } else {
      assert (docs + [doc])[1..] == docs[1..] + [doc];
      ConcatSnoc(docs[1..], doc);
    }
  }

  /** The output holds as many pages as the inputs together. */
  lemma {:induction false} ConcatLength<P>(docs: seq<seq<P>>)
    ensures |Concat(docs)| == TotalPages(docs)
  {
    if docs != [] {
      ConcatLength(docs[1..]);
    }
  }

  /** Page j of document i lands right after the pages of the documents
      before it: every page of every input is copied, in page order. */
  lemma {:induction false} ConcatIndex<P>(docs: seq<seq<P>>, i: nat, j: nat)
    requires i < |docs| && j < |docs[i]|
    ensures TotalPages(docs[..i]) + j < |Concat(docs)|
    ensures Concat(docs)[TotalPages(docs[..i]) + j] == docs[i][j]
  {
    ConcatLength(docs);
    if i == 0 {
      assert docs[..0] == [];
    } else {
      assert docs[..i][0] == docs[0] && docs[..i][1..] == docs[1..][..i - 1];
      ConcatIndex(docs[1..], i - 1, j);
      ConcatLength(docs[1..]);
    }
  }

  /** With no ".pdf" entry in the directory the merge still writes, a
      document with no pages. */
  lemma NoPdfWritesEmpty<P>(listing: seq<string>, load: string -> Option<seq<P>>)
    requires forall name :: name in listing ==> !EndsWith(name, ".pdf")
    ensures MergePdfs(listing, load) == Written([])
  {
    if PdfEntries(listing) != [] {
      PdfEntriesIff(listing, PdfEntries(listing)[0]);
    }
  }
}
