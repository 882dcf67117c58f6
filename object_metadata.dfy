/**
 * The metadata record of one S3 object (S3ObjectMetadata): its lookup state,
 * the names of the key-value indexes it lives in, its Mero object id and the
 * flags and attribute maps that the inline members read and update.
 */
module ObjectMetadata {
  import opened Wrappers

  /** Where a metadata record stands with respect to the store. */
  datatype ObjectMetadataState =
    | Empty    // initial state, no lookup done
    | Present  // read from the store
    | Missing  // not in the store
    | Saved    // written to the store
    | Deleted  // removed from the store
    | Failed
    | Invalid  // placeholder: no operation is to be performed on it

  const AllStates: set<ObjectMetadataState> := {Empty, Present, Missing, Saved, Deleted, Failed, Invalid}

  /** The state is always one of exactly seven values. */
  lemma SevenStates(s: ObjectMetadataState)
    ensures s in AllStates && |AllStates| == 7
  {
  }

  /** A 128-bit Mero object identifier, as its high and low 64-bit words. */
  datatype Oid = Oid(hi: bv64, lo: bv64)

  // ---------------------------------------------------------------------------
  // Index names
  // ---------------------------------------------------------------------------

  const BucketIndexPrefix: string := "BUCKET/"
  const MultipartIndexSuffix: string := "/Multipart"

  /** The key-value index holding a bucket's object metadata. */
  function BucketIndexName(bucketName: string): (r: string)
    ensures |r| == |BucketIndexPrefix| + |bucketName|
    ensures r[..|BucketIndexPrefix|] == BucketIndexPrefix && r[|BucketIndexPrefix|..] == bucketName
  {
    BucketIndexPrefix + bucketName
  }

  /** The bucket an index name belongs to, when it is a bucket index name. */
  function BucketOfIndexName(name: string): Option<string> {
    if |name| >= |BucketIndexPrefix| && name[..|BucketIndexPrefix|] == BucketIndexPrefix
    then Some(name[|BucketIndexPrefix|..])
    else None
  }

  /** A bucket index name names its bucket and no other. */
  lemma BucketIndexNameRoundTrip(bucketName: string)
    ensures BucketOfIndexName(BucketIndexName(bucketName)) == Some(bucketName)
  {
  }

  /** The key-value index holding a bucket's in-progress multipart uploads. */
  function MultipartIndexName(bucketName: string): (r: string)
    ensures r == BucketIndexName(bucketName) + MultipartIndexSuffix
  {
    BucketIndexPrefix + bucketName + "/" + "Multipart"
  }

  /** The bucket index name is a strict prefix of the multipart index name. */
  lemma BucketIndexNameIsStrictPrefix(bucketName: string)
    ensures BucketIndexName(bucketName) < MultipartIndexName(bucketName)
  {
  }

  /**
   * For bucket names without '/', a bucket index name never equals a
   * multipart index name, so the two kinds of index never share a name.
   */
  lemma IndexNamesDisjoint(a: string, b: string)
    requires '/' !in a && '/' !in b
    ensures BucketIndexName(a) != MultipartIndexName(b)
  {
    var m := MultipartIndexName(b);
    var k := |BucketIndexPrefix| + |b|;
    assert m[k] == MultipartIndexSuffix[0] == '/';
    if |BucketIndexName(a)| == |m| {
      assert BucketIndexName(a)[k] == a[|b|];
    }
  }

  // ---------------------------------------------------------------------------
  // The record
  // ---------------------------------------------------------------------------

  /** Every field of a record, as one value. */
  datatype Fields = Fields(
    accountName: string, accountId: string, userName: string, userId: string,
    bucketName: string, objectName: string, uploadId: string, objectKeyUri: string,
    oid: Oid,
    systemDefinedAttribute: map<string, string>,
    userDefinedAttribute: map<string, string>,
    isMultipart: bool,
    state: ObjectMetadataState)

  class S3ObjectMetadata {
    var accountName: string
    var accountId: string
    var userName: string
    var userId: string
    var bucketName: string
    var objectName: string
    var uploadId: string
    var objectKeyUri: string
    var oid: Oid
    var systemDefinedAttribute: map<string, string>
    var userDefinedAttribute: map<string, string>
    var isMultipart: bool
    var state: ObjectMetadataState

    function AllFields(): Fields
      reads this
    {
      Fields(accountName, accountId, userName, userId, bucketName, objectName, uploadId, objectKeyUri,
             oid, systemDefinedAttribute, userDefinedAttribute, isMultipart, state)
    }

    /**
     * A record for one object of one bucket, before any lookup: it keeps the
     * multipart flag and upload id it is given and the bucket and object the
     * request names, and starts in the `Empty` state. Nothing is promised
     * about the other fields.
     */
    constructor (bucketName: string, objectName: string, isMultipart: bool, uploadId: string)
      ensures this.bucketName == bucketName && this.objectName == objectName
      ensures this.isMultipart == isMultipart && this.uploadId == uploadId
      ensures state == Empty
    {
      accountName, accountId, userName, userId := "", "", "", "";
      this.bucketName, this.objectName, this.uploadId := bucketName, objectName, uploadId;
      objectKeyUri := "";
      oid := Oid(0, 0);
      systemDefinedAttribute, userDefinedAttribute := map[], map[];
      this.isMultipart := isMultipart;
      state := Empty;
    }

    /** The record's bucket index name, which decodes back to the record's bucket. */
    function GetBucketIndexName(): (r: string)
      reads this
      ensures BucketOfIndexName(r) == Some(bucketName)
    {
      BucketIndexNameRoundTrip(bucketName);
      BucketIndexName(bucketName)
    }

    /**
     * The record's multipart index name: it extends the bucket index name,
     * and read as a bucket index name it would name the bucket
     * `bucketName + "/Multipart"`, one no valid bucket name can spell.
     */
    function GetMultipartIndexName(): (r: string)
      reads this
      ensures GetBucketIndexName() < r
      ensures BucketOfIndexName(r) == Some(bucketName + MultipartIndexSuffix)
    {
      BucketIndexNameIsStrictPrefix(bucketName);
      assert MultipartIndexName(bucketName) == BucketIndexName(bucketName + MultipartIndexSuffix);
      BucketIndexNameRoundTrip(bucketName + MultipartIndexSuffix);
      MultipartIndexName(bucketName)
    }

    function GetOid(): Oid
      reads this
    {
      oid
    }

    function GetState(): ObjectMetadataState
      reads this
    {
      state
    }

    function GetUserAttributes(): map<string, string>
      reads this
    {
      userDefinedAttribute
    }

    /** Records the object id; `GetOid` then returns it, and nothing else changes. */
    method SetOid(id: Oid)
      modifies this
      ensures GetOid() == id
      ensures AllFields() == old(AllFields()).(oid := id)
    {
      oid := id;
    }

    /** Marks the record as a placeholder; nothing else changes. */
    method MarkInvalid()
      modifies this
      ensures GetState() == Invalid
      ensures AllFields() == old(AllFields()).(state := Invalid)
    {
      state := Invalid;
    }

    /** Clears the multipart flag; nothing else changes. */
    method MarkAsNonMultipart()
      modifies this
      ensures !isMultipart
      ensures AllFields() == old(AllFields()).(isMultipart := false)
    {
      isMultipart := false;
    }
  }
}
