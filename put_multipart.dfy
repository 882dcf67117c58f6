/**
 * Uploading one part of a multipart upload (S3PutMultiObjectAction): the
 * steps the action queues, where in the object the part is written, the
 * decisions taken when creating the object and streaming the data, which
 * request headers become the part's user-defined attributes, and which
 * response the client gets.
 */
module PutMultipart {
  import opened Wrappers
  import opened Decimal
  import opened ObjectMetadata

  // ---------------------------------------------------------------------------
  // States reported by the collaborators
  // ---------------------------------------------------------------------------

  /** The bucket metadata's state; `BucketOtherState` stands for every other value. */
  datatype BucketState = BucketPresent | BucketMissing | BucketOtherState

  /** A part metadata record's state; `PartOtherState` stands for every other value. */
  datatype PartState = PartPresent | PartMissing | PartSaved | PartOtherState

  /** The object writer's state; `WriterOtherState` stands for every other value. */
  datatype WriterState = WriterExists | WriterFailed | WriterOtherState

  /** size_t: unsigned 64-bit arithmetic wraps modulo this. */
  const SizeModulus: nat := 0x1_0000_0000_0000_0000

  type Size = n: nat | n < SizeModulus

  // ---------------------------------------------------------------------------
  // Steps
  // ---------------------------------------------------------------------------

  datatype Step =
    | FetchBucketInfo
    | FetchMultipartMetadata
    | FetchFirstPartInfo
    | CreateObject
    | InitiateDataStreaming
    | SaveMetadata
    | SendResponse

  /**
   * The steps queued for a part: bucket info, the upload's metadata, the
   * first part's metadata (for every part but part 1), then create, stream,
   * save and respond.
   */
  function PlannedSteps(partNumber: int): (r: seq<Step>)
    ensures |r| == if partNumber == 1 then 6 else 7
    ensures r[..2] == [FetchBucketInfo, FetchMultipartMetadata]
    ensures r[|r| - 4..] == [CreateObject, InitiateDataStreaming, SaveMetadata, SendResponse]
    ensures FetchFirstPartInfo in r <==> partNumber != 1
    ensures partNumber != 1 ==> r[2] == FetchFirstPartInfo
  {
    [FetchBucketInfo, FetchMultipartMetadata]
    + (if partNumber != 1 then [FetchFirstPartInfo] else [])
    + [CreateObject, InitiateDataStreaming, SaveMetadata, SendResponse]
  }

  /** No step is queued twice, and every fetch comes before the object is created. */
  lemma PlannedStepsOrder(partNumber: int, i: int, j: int)
    requires 0 <= i < j < |PlannedSteps(partNumber)|
    ensures PlannedSteps(partNumber)[i] != PlannedSteps(partNumber)[j]
    ensures PlannedSteps(partNumber)[j] in {FetchBucketInfo, FetchMultipartMetadata, FetchFirstPartInfo}
            ==> PlannedSteps(partNumber)[i] != CreateObject
  {
    var r := PlannedSteps(partNumber);
    if partNumber == 1 {
      assert r == [FetchBucketInfo, FetchMultipartMetadata, CreateObject, InitiateDataStreaming, SaveMetadata, SendResponse];
    } else {
      assert r == [FetchBucketInfo, FetchMultipartMetadata, FetchFirstPartInfo, CreateObject, InitiateDataStreaming, SaveMetadata, SendResponse];
    }
  }

  // ---------------------------------------------------------------------------
  // Creating the object
  // ---------------------------------------------------------------------------

  /**
   * Where the part's data starts in the object: parts after the first follow
   * part 1's size, computed in size_t (wrapping modulo 2^64), and only when
   * part 1's metadata was found; otherwise 0.
   */
  function WriteOffset(partNumber: int, partOneState: PartState, partOneSize: Size): (offset: Size)
    ensures partNumber <= 1 || partOneState != PartPresent ==> offset == 0
  {
    if partNumber > 1 && partOneState == PartPresent then ((partNumber - 1) * partOneSize) % SizeModulus
    else 0
  }

  /** Without wrap-around, part N starts (N - 1) part-1 sizes into the object. */
  lemma WriteOffsetIsPartIndexTimesSize(partNumber: int, partOneSize: Size)
    requires partNumber >= 1 && (partNumber - 1) * partOneSize < SizeModulus
    ensures WriteOffset(partNumber, PartPresent, partOneSize) == (partNumber - 1) * partOneSize
  {
  }

  lemma {:induction false} MulMonotonic(a: nat, b: nat, c: nat)
    requires a <= b
    ensures a * c <= b * c
    decreases b - a
  {
    if a < b {
      MulMonotonic(a, b - 1, c);
      assert (b - 1) * c + c == b * c;
    }
  }

  /**
   * Without wrap-around, the parts are laid end to end: part m + 1 starts
   * where part m (of part 1's size) ends, and the range of part m ends
   * before any later part n starts.
   */
  lemma PartsAreContiguous(m: int, n: int, partOneSize: Size)
    requires 1 <= m < n && (n - 1) * partOneSize < SizeModulus
    ensures WriteOffset(m + 1, PartPresent, partOneSize) == WriteOffset(m, PartPresent, partOneSize) + partOneSize
    ensures WriteOffset(m, PartPresent, partOneSize) + partOneSize <= WriteOffset(n, PartPresent, partOneSize)
  {
    var size: nat := partOneSize;
    MulMonotonic(m - 1, m, size);
    MulMonotonic(m, n - 1, size);
    assert (m - 1) * size + size == m * size;
    WriteOffsetIsPartIndexTimesSize(m, partOneSize);
    WriteOffsetIsPartIndexTimesSize(m + 1, partOneSize);
    WriteOffsetIsPartIndexTimesSize(n, partOneSize);
  }

  /** What create_object does next. */
  datatype CreateOutcome =
    | RespondWithoutWriter                           // the bucket is not there: respond at once
    | CreateStoreObject(offset: Size)                // part 1: create the object, then stream
    | SkipToStreaming(offset: Size, alsoResponded: bool)  // other parts: move straight on

  /**
   * The decision in create_object. For a later part whose part-1 metadata is
   * not present the source sends a response and still goes on with a writer
   * at offset 0: `alsoResponded` records that, and nothing more is claimed.
   */
  function CreateObjectDecision(bucket: BucketState, partNumber: int, partOneState: PartState,
                                partOneSize: Size): (r: CreateOutcome)
    ensures r.RespondWithoutWriter? <==> bucket != BucketPresent
    ensures r.CreateStoreObject? <==> bucket == BucketPresent && partNumber == 1
    ensures r.CreateStoreObject? ==> r.offset == 0
    ensures r.SkipToStreaming? ==> r.offset == WriteOffset(partNumber, partOneState, partOneSize)
  {
    if bucket != BucketPresent then RespondWithoutWriter
    else
      var offset := WriteOffset(partNumber, partOneState, partOneSize);
      if partNumber == 1 then CreateStoreObject(offset)
      else SkipToStreaming(offset, partNumber > 1 && partOneState != PartPresent)
  }

  /** After a failed create: an existing object is overwritten, any other failure is answered. */
  function AfterCreateFailed(writer: WriterState): (next: Step)
    ensures next == InitiateDataStreaming <==> writer == WriterExists
    ensures next == SendResponse <==> writer != WriterExists
  {
    if writer == WriterExists then InitiateDataStreaming else SendResponse
  }

  // ---------------------------------------------------------------------------
  // Streaming the data
  // ---------------------------------------------------------------------------

  datatype StreamingStart = SaveZeroLengthPart | WriteBufferedBody | ListenForBody

  /**
   * How write_object hands a buffer to the writer: the last buffer (input
   * frozen) is written and then checked for more work; an earlier one pauses
   * reading first and, once written, only resumes reading.
   */
  datatype WritePlan = WritePlan(pauseReading: bool, thenCheckForMore: bool)

  function PlanWrite(inputFrozen: bool): (r: WritePlan)
    ensures r.pauseReading <==> !inputFrozen
    ensures r.thenCheckForMore <==> inputFrozen
    ensures r.pauseReading != r.thenCheckForMore
  {
    if inputFrozen then WritePlan(false, true) else WritePlan(true, false)
  }

  /** What follows a successful write. */
  datatype AfterWrite = WriteMore | Advance

  /** Writing goes on while buffered input remains; the action advances only once it is empty. */
  function AfterWriteSuccessful(bufferedLength: nat): (r: AfterWrite)
    ensures r == Advance <==> bufferedLength == 0
  {
    if bufferedLength > 0 then WriteMore else Advance
  }

  // ---------------------------------------------------------------------------
  // User-defined attributes
  // ---------------------------------------------------------------------------

  const UserMetaMarker: string := "x-amz-meta-"

  predicate OccursAt(text: string, pattern: string, j: int) {
    0 <= j && j + |pattern| <= |text| && text[j..j + |pattern|] == pattern
  }

  /** The first position at or after `from` where `pattern` occurs in `text` (std::string::find). */
  function FindFrom(text: string, pattern: string, from: nat): (r: Option<nat>)
    requires from <= |text|
    ensures r.Some? ==> from <= r.value && OccursAt(text, pattern, r.value)
    ensures r.Some? ==> forall j :: from <= j < r.value ==> !OccursAt(text, pattern, j)
    ensures r.None? ==> forall j :: from <= j ==> !OccursAt(text, pattern, j)
    decreases |text| - from
  {
    if from + |pattern| > |text| then None
    else if text[from..from + |pattern|] == pattern then Some(from)
    else FindFrom(text, pattern, from + 1)
  }

  /** A header becomes a user-defined attribute when "x-amz-meta-" occurs anywhere in its name. */
  predicate IsUserMetaHeader(name: string): (r: bool)
    ensures r <==> exists j :: OccursAt(name, UserMetaMarker, j)
  {
    FindFrom(name, UserMetaMarker, 0).Some?
  }

  /** Every "x-amz-meta-" header qualifies, and so does one that only contains the marker. */
  lemma UserMetaHeaderIsSubstringTest(suffix: string, prefix: string)
    ensures IsUserMetaHeader(UserMetaMarker + suffix)
    ensures IsUserMetaHeader(prefix + UserMetaMarker + suffix)
  {
    var a := UserMetaMarker + suffix;
    assert OccursAt(a, UserMetaMarker, 0) by { assert a[0..|UserMetaMarker|] == UserMetaMarker; }
    var b := prefix + UserMetaMarker + suffix;
    assert OccursAt(b, UserMetaMarker, |prefix|) by {
      assert b[|prefix|..|prefix| + |UserMetaMarker|] == UserMetaMarker;
    }
  }

  /** A name with no lower-case 'x' never qualifies: the test is case-sensitive. */
  lemma UserMetaHeaderHasLowerX(name: string)
    ensures IsUserMetaHeader(name) ==> 'x' in name
  {
    if IsUserMetaHeader(name) {
      var j :| OccursAt(name, UserMetaMarker, j);
      assert name[j] == name[j..j + |UserMetaMarker|][0];
    }
  }

  /**
   * The loop in save_metadata: every request header whose name passes the
   * marker test is copied, value unchanged, and no other header is.
   */
  method CollectUserDefinedAttributes(headers: map<string, string>) returns (attrs: map<string, string>)
    ensures forall name :: name in attrs <==> name in headers && IsUserMetaHeader(name)
    ensures forall name :: name in attrs ==> attrs[name] == headers[name]
  {
    attrs := map[];
    var remaining := headers.Keys;
    while remaining != {}
      invariant remaining <= headers.Keys
      invariant forall name :: name in attrs <==> name in headers && name !in remaining && IsUserMetaHeader(name)
      invariant forall name :: name in attrs ==> attrs[name] == headers[name]
      decreases remaining
    {
      var name :| name in remaining;
      if FindFrom(name, UserMetaMarker, 0).Some? {
        attrs := attrs[name := headers[name]];
      }
      remaining := remaining - {name};
    }
  }

  // ---------------------------------------------------------------------------
  // The response
  // ---------------------------------------------------------------------------

  datatype ErrorCode = NoSuchBucket | NoSuchUpload | ServiceUnavailable | InternalError

  datatype Outcome = ErrorOutcome(code: ErrorCode) | Success200

  /**
   * What send_response_to_s3_client sees: the bucket's state, and the states
   * of the upload's metadata, the part's metadata and the writer, each
   * `None` while that object has not been created.
   */
  datatype ResponseFacts = ResponseFacts(
    bucket: BucketState,
    multipart: Option<ObjectMetadataState>,
    part: Option<PartState>,
    writer: Option<WriterState>)

  /**
   * The branch chain as written. The writer's state and then the part's
   * state are read without checking that those objects exist; `None` is
   * the null dereference that follows when they do not.
   */
  function OutcomeAsWritten(f: ResponseFacts): (r: Option<Outcome>)
    ensures r.None? ==> f.writer.None? || f.part.None?
    ensures r == Some(Success200) ==> f.part == Some(PartSaved) && f.writer.Some?
  {
    if f.bucket == BucketMissing then Some(ErrorOutcome(NoSuchBucket))
    else if f.multipart == Some(Missing) then Some(ErrorOutcome(NoSuchUpload))
    else if f.part == Some(PartMissing) then Some(ErrorOutcome(ServiceUnavailable))
    else if f.writer.None? then None
    else if f.writer.value == WriterFailed then Some(ErrorOutcome(InternalError))
    else if f.part.None? then None
    else if f.part.value == PartSaved then Some(Success200)
    else Some(ErrorOutcome(InternalError))
  }

  /** A part-1 upload whose upload metadata failed to load reaches the writer check with no writer. */
  lemma WriterDereferencedWhenAbsent()
    ensures OutcomeAsWritten(ResponseFacts(BucketPresent, Some(Failed), None, None)).None?
  {
  }

  /**
   * The response priority, with a missing writer or part record answered as
   * an internal error: no bucket, then no upload, then part 1 not yet known
   * (retry), then a failed write; success only for a saved part.
   */
  function ResponseOutcome(f: ResponseFacts): (o: Outcome)
    ensures o == ErrorOutcome(NoSuchBucket) <==> f.bucket == BucketMissing
    ensures o == ErrorOutcome(NoSuchUpload) <==> f.bucket != BucketMissing && f.multipart == Some(Missing)
    ensures o == ErrorOutcome(ServiceUnavailable) <==>
              f.bucket != BucketMissing && f.multipart != Some(Missing) && f.part == Some(PartMissing)
    ensures o == Success200 <==>
              f.bucket != BucketMissing && f.multipart != Some(Missing) &&
              f.writer.Some? && f.writer.value != WriterFailed && f.part == Some(PartSaved)
  {
    if f.bucket == BucketMissing then ErrorOutcome(NoSuchBucket)
    else if f.multipart == Some(Missing) then ErrorOutcome(NoSuchUpload)
    else if f.part == Some(PartMissing) then ErrorOutcome(ServiceUnavailable)
    else if f.writer.None? || f.writer.value == WriterFailed then ErrorOutcome(InternalError)
    else if f.part == Some(PartSaved) then Success200
    else ErrorOutcome(InternalError)
  }

  /** Wherever the code as written answers at all, the corrected chain gives the same answer. */
  lemma ResponseOutcomeAgreesWithAsWritten(f: ResponseFacts)
    requires OutcomeAsWritten(f).Some?
    ensures ResponseOutcome(f) == OutcomeAsWritten(f).value
  {
  }

  datatype HttpResponse =
    | ErrorReply(code: ErrorCode, headers: map<string, string>, body: string)
    | OkReply(headers: map<string, string>)

  /**
   * The response sent. `errorXml` renders an error body (S3Error::to_xml is
   * not part of this model) and `md5` is the written content's MD5.
   */
  function ResponseFor(f: ResponseFacts, md5: string, errorXml: ErrorCode -> string): (r: HttpResponse)
    ensures r.OkReply? <==> ResponseOutcome(f) == Success200
    ensures r.OkReply? ==> r.headers == map["ETag" := md5]
    ensures r.ErrorReply? ==> r.code == ResponseOutcome(f).code && r.body == errorXml(r.code)
    ensures r.ErrorReply? ==>
              && "Content-Type" in r.headers && r.headers["Content-Type"] == "application/xml"
              && "Content-Length" in r.headers && ParseInt(r.headers["Content-Length"]) == Some(|r.body|)
              && ("Retry-After" in r.headers <==> r.code == ServiceUnavailable)
              && (r.code == ServiceUnavailable ==> r.headers["Retry-After"] == "1")
  {
    match ResponseOutcome(f)
    case Success200 => OkReply(map["ETag" := md5])
    case ErrorOutcome(code) =>
      var xml := errorXml(code);
      ParseFormatNat(|xml|);
      var headers := map["Content-Type" := "application/xml", "Content-Length" := FormatNat(|xml|)];
      ErrorReply(code, if code == ServiceUnavailable then headers["Retry-After" := "1"] else headers, xml)
  }

  // ---------------------------------------------------------------------------
  // The action
  // ---------------------------------------------------------------------------

  /** The part record save_metadata fills in before saving it. */
  datatype PartRecord = PartRecord(
    uploadId: string, partNumber: int, contentLength: string, md5: string,
    userDefinedAttributes: map<string, string>)

  class PutMultiObjectAction {
    var partNumber: int
    var uploadId: string
    var tasks: seq<Step>
    var totalDataToStream: Size
    var partMetadata: Option<PartRecord>

    /** The action for one part; its steps are queued at once. */
    constructor (partNumber: int, uploadId: string)
      ensures this.partNumber == partNumber && this.uploadId == uploadId
      ensures tasks == PlannedSteps(partNumber)
      ensures totalDataToStream == 0 && partMetadata == None
    {
      this.partNumber := partNumber;
      this.uploadId := uploadId;
      tasks := [];
      totalDataToStream := 0;
      partMetadata := None;
      new;
      SetupSteps();
    }

    /** Appends this part's steps to the task list. */
    method SetupSteps()
      modifies this`tasks
      ensures tasks == old(tasks) + PlannedSteps(partNumber)
    {
      tasks := tasks + [FetchBucketInfo];
      tasks := tasks + [FetchMultipartMetadata];
      if partNumber != 1 {
        tasks := tasks + [FetchFirstPartInfo];
      }
      tasks := tasks + [CreateObject];
      tasks := tasks + [InitiateDataStreaming];
      tasks := tasks + [SaveMetadata];
      tasks := tasks + [SendResponse];
    }

    /**
     * Records how much data the part carries and picks how to stream it: a
     * zero-length part goes straight to saving its metadata.
     */
    method StartDataStreaming(contentLength: Size, hasAllBodyContent: bool) returns (start: StreamingStart)
      modifies this`totalDataToStream
      ensures totalDataToStream == contentLength
      ensures start == SaveZeroLengthPart <==> contentLength == 0
      ensures start == WriteBufferedBody <==> contentLength != 0 && hasAllBodyContent
      ensures start == ListenForBody <==> contentLength != 0 && !hasAllBodyContent
    {
      totalDataToStream := contentLength;
      if totalDataToStream == 0 {
        start := SaveZeroLengthPart;
      } else if hasAllBodyContent {
        start := WriteBufferedBody;
      } else {
        start := ListenForBody;
      }
    }

    /**
     * Builds the part record: the Content-Length header's text, the writer's
     * MD5 and the request's user-defined headers.
     */
    method SaveMetadataRecord(contentLengthHeader: string, md5: string, headers: map<string, string>)
      modifies this`partMetadata
      ensures partMetadata.Some?
      ensures partMetadata.value.uploadId == uploadId && partMetadata.value.partNumber == partNumber
      ensures partMetadata.value.contentLength == contentLengthHeader && partMetadata.value.md5 == md5
      ensures forall name :: name in partMetadata.value.userDefinedAttributes <==>
                               name in headers && IsUserMetaHeader(name)
      ensures forall name :: name in partMetadata.value.userDefinedAttributes ==>
                               partMetadata.value.userDefinedAttributes[name] == headers[name]
    {
      var attrs := CollectUserDefinedAttributes(headers);
      partMetadata := Some(PartRecord(uploadId, partNumber, contentLengthHeader, md5, attrs));
    }
  }
}
