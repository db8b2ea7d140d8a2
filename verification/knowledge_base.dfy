/** `process_knowledge_base_response`: folding the ordered retrieval
    results of a knowledge-base query into the prompt's context text and the
    list of sources returned to the client. */
module KnowledgeBase {
  import opened Maybe
  import opened Text
  import opened S3Uri

  /** The entries of a result's `metadata` the lambda reads. */
  datatype Metadata = Metadata(
    meetingDate: Option<string>,
    pageNumber: Option<nat>,
    source: Option<string>)

  /** One retrieval result. `text` is `None` unless the result has
      `content.text`; `s3Uri` is `None` unless it has `location.s3Location.uri`. */
  datatype RetrievalResult = RetrievalResult(
    text: Option<string>,
    metadata: Option<Metadata>,
    s3Uri: Option<string>)

  datatype Source = Source(
    filename: string,
    url: Option<string>,
    s3Uri: Option<string>,
    presignedUrl: Option<string>)

  /** The fold either finishes, or raises `KeyError` on the result at
      `index`, which has text but no metadata. */
  datatype KbOutcome = Processed(context: string, sources: seq<Source>) | MissingMetadata(index: nat)

  /** How many results, from the first, carry text: the fold stops at the
      first one that does not. */
  function ValidPrefix(results: seq<RetrievalResult>): (n: nat)
    ensures n <= |results|
    ensures forall j :: 0 <= j < n ==> results[j].text.Some?
    ensures n < |results| ==> results[n].text.None?
  {
    if |results| == 0 || results[0].text.None? then 0
    else 1 + ValidPrefix(results[1..])
  }

  /** `Source {i+1}`: the label of the result at position `i`. */
  function SourceLabel(i: nat): string {
    "Source " + NatToString(i + 1)
  }

  /** The context paragraph for the result at position `i`. */
  function ContextEntry(i: nat, text: string, metadata: Metadata): string {
    "[" + SourceLabel(i) + "]: Meeting Date: " + metadata.meetingDate.GetOr("NA") + " " + text + "\n\n"
  }

  /** A label is `Source ` followed by decimal digits that read back as the
      one-based position. */
  lemma SourceLabelNumber(i: nat)
    ensures var tag := SourceLabel(i);
            && |tag| > 7 && tag[..7] == "Source "
            && (forall k :: 7 <= k < |tag| ==> IsDigit(tag[k]))
            && ParseNat(tag[7..]) == i + 1
  {
    var tag := SourceLabel(i);
    assert tag[7..] == NatToString(i + 1);
    ParseNatToString(i + 1);
  }

  /** Results at different positions get different labels. */
  lemma SourceLabelsDistinct(i: nat, j: nat)
    requires i != j
    ensures SourceLabel(i) != SourceLabel(j)
  {
    SourceLabelNumber(i);
    SourceLabelNumber(j);
  }

  /** The fields of a context paragraph, read back: the bracketed label and
      `]: Meeting Date: `, then the meeting date (`NA` when the metadata has
      none), then a space, the passage and a blank line. */
  lemma ContextEntryFields(i: nat, text: string, metadata: Metadata)
    ensures var r := ContextEntry(i, text, metadata);
            var head := "[" + SourceLabel(i) + "]: Meeting Date: ";
            var date := metadata.meetingDate.GetOr("NA");
            && |r| == |head| + |date| + 1 + |text| + 2
            && r[..|head|] == head
            && r[|head|..|head| + |date|] == date
            && r[|head| + |date|] == ' '
            && r[|head| + |date| + 1..|r| - 2] == text
            && r[|r| - 2..] == "\n\n"
  {
    var head := "[" + SourceLabel(i) + "]: Meeting Date: ";
    var date := metadata.meetingDate.GetOr("NA");
    var r := ContextEntry(i, text, metadata);
    assert r == head + date + " " + text + "\n\n";
  }

  /** The presigned link, pointed at the page when the result names a
      (non-zero) page and the link is non-empty; otherwise the link as is. */
  function PageUrl(presigned: Option<string>, page: Option<nat>): (r: Option<string>)
    ensures r.Some? <==> presigned.Some?
    ensures r.Some? ==> presigned.value <= r.value
    ensures r != presigned <==> page.Some? && page.value != 0 && presigned.Some? && presigned.value != ""
    ensures r != presigned ==> r.value == presigned.value + "#page=" + NatToString(page.value)
  {
    if page.Some? && page.value != 0 && presigned.Some? && presigned.value != "" then
      Some(presigned.value + "#page=" + NatToString(page.value))
    else presigned
  }

  /** The source record for the result at position `i`: a positional label
      and nothing else when it has no S3 location; otherwise named after the
      last `/`-piece of its URI, carrying the URI, a presigned link for it and
      the metadata's source link. */
  function SourceOf(i: nat, result: RetrievalResult, metadata: Metadata, signer: Signer): (s: Source)
    ensures result.s3Uri.None? ==> s == Source(SourceLabel(i), None, None, None)
    ensures result.s3Uri.Some? ==>
              && s.s3Uri == result.s3Uri
              && s.filename == LastSegment(result.s3Uri.value, '/')
              && s.url == metadata.source
              && s.presignedUrl == PageUrl(GeneratePresignedUrl(result.s3Uri.value, signer), metadata.pageNumber)
  {
    match result.s3Uri
    case None => Source(SourceLabel(i), None, None, None)
    case Some(uri) =>
      var presigned := GeneratePresignedUrl(uri, signer);
      Source(LastSegment(uri, '/'), metadata.source, Some(uri), PageUrl(presigned, metadata.pageNumber))
  }

  predicate MetadataThrough(results: seq<RetrievalResult>, i: nat, n: nat)
    requires i <= n <= |results|
  {
    forall j :: i <= j < n ==> results[j].metadata.Some?
  }

  /** The context text for the results at positions `i` to `n`, in order. */
  function Entries(results: seq<RetrievalResult>, i: nat, n: nat): string
    requires i <= n <= ValidPrefix(results)
    requires MetadataThrough(results, i, n)
    decreases n - i
  {
    if i == n then ""
    else ContextEntry(i, results[i].text.value, results[i].metadata.value) + Entries(results, i + 1, n)
  }

  /** The loop of `process_knowledge_base_response` from position `i` on:
      the paragraphs and sources of the remaining leading results with text,
      or the position of the first of them that has no metadata. */
  function Gather(results: seq<RetrievalResult>, i: nat, signer: Signer): (r: KbOutcome)
    requires i <= ValidPrefix(results)
    decreases |results| - i
    ensures r.Processed? <==> MetadataThrough(results, i, ValidPrefix(results))
    ensures r.MissingMetadata? ==>
              && i <= r.index < ValidPrefix(results)
              && results[r.index].metadata.None?
              && MetadataThrough(results, i, r.index)
    ensures r.Processed? ==>
              && |r.sources| == ValidPrefix(results) - i
              && forall j :: i <= j < ValidPrefix(results) ==>
                   r.sources[j - i] == SourceOf(j, results[j], results[j].metadata.value, signer)
    ensures r.Processed? ==> r.context == Entries(results, i, ValidPrefix(results))
  {
    if i == |results| || results[i].text.None? then
      assert ValidPrefix(results) == i;
      Processed("", [])
    else
      match results[i].metadata
      case None => MissingMetadata(i)
      case Some(metadata) =>
        match Gather(results, i + 1, signer)
        case MissingMetadata(k) => MissingMetadata(k)
        case Processed(context, sources) =>
          var entry := ContextEntry(i, results[i].text.value, metadata);
          var source := SourceOf(i, results[i], metadata, signer);
          var all := [source] + sources;
          assert forall k :: 1 <= k < |all| ==> all[k] == sources[k - 1];
          Processed(entry + context, all)
  }

  /** `process_knowledge_base_response`. Without `retrievalResults` there is
      no context and no source. Otherwise, for the leading results that have
      text, one context paragraph and one source each, in order; the fold
      stops at the first result without text, and raises at the first of the
      leading results that has no metadata. */
  function ProcessKnowledgeBaseResponse(retrieval: Option<seq<RetrievalResult>>, signer: Signer): (r: KbOutcome)
    ensures retrieval.None? ==> r == Processed("", [])
    ensures retrieval.Some? ==>
              var results := retrieval.value;
              var n := ValidPrefix(results);
              && (r.Processed? <==> MetadataThrough(results, 0, n))
              && (r.MissingMetadata? ==>
                    && r.index < n
                    && results[r.index].text.Some?
                    && results[r.index].metadata.None?
                    && MetadataThrough(results, 0, r.index))
              && (r.Processed? ==>
                    && |r.sources| == n
                    && (forall j :: 0 <= j < n ==> r.sources[j] == SourceOf(j, results[j], results[j].metadata.value, signer))
                    && r.context == Entries(results, 0, n))
  {
    match retrieval
    case None => Processed("", [])
    case Some(results) => Gather(results, 0, signer)
  }
}
