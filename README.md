# Bucket-policy conditions and multipart part uploads, in Dafny

This project models three pieces of the CORTX S3 server and proves properties of them.

- **The bucket-policy condition evaluator** (`BucketPolicyAuthorizer.isConditionMatching`). It decides whether a request satisfies a policy statement's condition block. A block is a list of clauses `type(key, values)`. The request supplies a map from condition keys to values, and a value may be null. The evaluator is rebuilt from its unit tests, one outcome per test. Modules `PolicyCondition`, `PolicyConditionCases` and `Decimal`.
- **The part-upload action** (`S3PutMultiObjectAction`). For one part of a multipart upload it covers:
  - the steps the action queues;
  - the offset at which the part is written;
  - what happens when the object is created and when the body streams in;
  - which request headers become the part's user-defined attributes;
  - which HTTP response the client receives.

  Module `PutMultipart`.
- **The object metadata record** (`S3ObjectMetadata`): its seven lookup states, the names of its key-value indexes, and the inline setters. Module `ObjectMetadata`.

The modelling choices for the evaluator:

- A request attribute is `Absent`, `NullValue` or `Value(text)`.
- `IfExists` lets a key the request does not carry satisfy the clause. A key that is present, even with null, still goes to the base operator.
- A string, numeric or boolean clause over a key with no value (absent without `IfExists`, or null) never matches, negated operators included. No test pins this case; it is a modelling choice. In a Deny statement it means the Deny stops applying when the key is missing.
- Numbers are decimal integers with an optional sign.
- An empty value list never matches unless the IfExists bypass applies.
- A numeric operator compares the carried number with each listed number. NumericEquals and the four orderings hold when at least one listed number satisfies the relation. A listed value that is not a number is skipped by those five operators, but makes NumericNotEquals false. No test pins this case; it is a modelling choice.
- An unrecognised type name never matches. This includes the `Date…` family, whose tests are commented out.
- `Null ["false"]` holds iff the key carries a non-null value: the test at `BucketPolicyAuthorizerTest.java:695-708` expects `false` for a key mapped to null.

The part-upload action is asynchronous: every step ends by calling the next step or a failure handler. The model covers each step's decision as a function or method over the states the step reads. The collaborators' states (bucket, part, writer) become parameters. The action's own fields live in the class `PutMultiObjectAction`. `size_t` arithmetic is modelled modulo 2^64.

## Model

| member | source | states |
|---|---|---|
| PolicyCondition.ParseOperatorName | auth/server/src/test/java/com/seagates3/policy/BucketPolicyAuthorizerTest.java:40-52 | every operator's spelling decodes back to that operator |
| PolicyCondition.NoOperatorNameEndsWithIfExists | auth/server/src/test/java/com/seagates3/policy/BucketPolicyAuthorizerTest.java:195-208 | no base operator name itself ends in `IfExists`, so the suffix is unambiguous |
| PolicyCondition.ParseConditionType | auth/server/src/test/java/com/seagates3/policy/BucketPolicyAuthorizerTest.java:195-208 | a decoded type name spells exactly the operator plus the optional `IfExists` suffix |
| PolicyCondition.ParseTypeNameRoundTrip | auth/server/src/test/java/com/seagates3/policy/BucketPolicyAuthorizerTest.java:195-208 | every (operator, IfExists) pair has one spelling, and it decodes back to the same pair |
| PolicyCondition.EqualsIgnoreCaseAt | auth/server/src/test/java/com/seagates3/policy/BucketPolicyAuthorizerTest.java:86-148 | two strings are equal ignoring case iff they have the same length and agree at each position after ASCII folding |
| PolicyCondition.LikeLiteral | auth/server/src/test/java/com/seagates3/policy/BucketPolicyAuthorizerTest.java:150-193 | a pattern without `*` or `?` matches exactly itself |
| PolicyCondition.LikeStarMatchesAll | auth/server/src/test/java/com/seagates3/policy/BucketPolicyAuthorizerTest.java:150-193 | the pattern `*` matches every string |
| PolicyCondition.LikeWithoutStarHasPatternLength | auth/server/src/test/java/com/seagates3/policy/BucketPolicyAuthorizerTest.java:150-178 | a pattern with no `*` matches only strings of its own length (`?` is exactly one character) |
| PolicyCondition.LikeEndsWithLiteral | auth/server/src/test/java/com/seagates3/policy/BucketPolicyAuthorizerTest.java:165-193 | matching is anchored at the end: a pattern ending in a plain character only matches strings ending in it |
| PolicyCondition.LikeStarSuffix | auth/server/src/test/java/com/seagates3/policy/BucketPolicyAuthorizerTest.java:150-193 | appending `*` to a pattern keeps every match and also accepts any extension of it |
| PolicyCondition.Any | auth/server/src/test/java/com/seagates3/policy/BucketPolicyAuthorizerTest.java:40-52 | a clause's value list matches iff at least one listed value matches |
| PolicyCondition.MatchClause | auth/server/src/test/java/com/seagates3/policy/BucketPolicyAuthorizerTest.java:195-208 | with `IfExists`, an absent key satisfies every non-Null clause; `NullIfExists` never holds; an empty value list never holds otherwise |
| PolicyCondition.MatchCondition | auth/server/src/test/java/com/seagates3/policy/BucketPolicyAuthorizerTest.java:458-649 | a clause whose type names no recognised operator (the `Date…` family included) never holds |
| PolicyCondition.IsConditionMatching | auth/server/src/test/java/com/seagates3/policy/BucketPolicyAuthorizerTest.java:40-52 | a block holds iff every one of its clauses holds |
| PolicyCondition.Lookup | auth/server/src/test/java/com/seagates3/policy/BucketPolicyAuthorizerTest.java:680-708 | a key is absent, present with null, or present with a value, exactly as the request map has it |
| PolicyCondition.ParseOperator | auth/server/src/test/java/com/seagates3/policy/BucketPolicyAuthorizerTest.java:40-52 | a recognised operator name is exactly that operator's spelling |
| PolicyCondition.FoldCase | auth/server/src/test/java/com/seagates3/policy/BucketPolicyAuthorizerTest.java:86-148 | case folding keeps the length and lower-cases each ASCII letter in place |
| PolicyCondition.Like | auth/server/src/test/java/com/seagates3/policy/BucketPolicyAuthorizerTest.java:150-193 | a string a pattern matches has at least one character for each non-`*` pattern character |
| PolicyCondition.BaseMatch | auth/server/src/test/java/com/seagates3/policy/BucketPolicyAuthorizerTest.java:651-708 | an empty list never matches, only Null matches without a value, and Null holds iff `true` is listed and the key is absent or `false` is listed and it has a value |
| PolicyCondition.ValueMatch | auth/server/src/test/java/com/seagates3/policy/BucketPolicyAuthorizerTest.java:40-456 | on a present value: StringEquals iff it is listed, StringNotEquals iff it is not, the IgnoreCase and Like pairs iff some/no listed value matches, Bool iff it is a listed boolean token; NumericEquals and the orderings iff the value parses and relates to some listed value that parses; NumericNotEquals iff it parses and every listed value parses to a different number |
| PolicyCondition.StringEqualsMeaning | auth/server/src/test/java/com/seagates3/policy/BucketPolicyAuthorizerTest.java:40-84 | StringEquals holds iff the carried value is listed (or the key is absent under IfExists); StringNotEquals iff it is listed nowhere in a non-empty list |
| PolicyCondition.StringEqualsIgnoreCaseMeaning | auth/server/src/test/java/com/seagates3/policy/BucketPolicyAuthorizerTest.java:86-148 | StringEqualsIgnoreCase holds iff some listed value equals the carried one ignoring case; the negated form iff none does, in a non-empty list |
| PolicyCondition.StringLikeMeaning | auth/server/src/test/java/com/seagates3/policy/BucketPolicyAuthorizerTest.java:150-193 | StringLike holds iff some listed pattern matches the carried value; StringNotLike iff none does, in a non-empty list |
| PolicyCondition.AnyIgnoresOrder | auth/server/src/test/java/com/seagates3/policy/BucketPolicyAuthorizerTest.java:40-52 | whether some value matches depends only on which values are listed |
| PolicyCondition.ValueOrderIrrelevant | auth/server/src/test/java/com/seagates3/policy/BucketPolicyAuthorizerTest.java:40-52 | reordering a clause's values (any permutation) does not change its outcome, for every operator |
| PolicyCondition.IfExistsPresentKeyUsesBaseOperator | auth/server/src/test/java/com/seagates3/policy/BucketPolicyAuthorizerTest.java:443-456 | for a key the request carries, `XIfExists` gives exactly the outcome of `X` |
| PolicyCondition.MissingValueNeverMatches | auth/server/src/test/java/com/seagates3/policy/BucketPolicyAuthorizerTest.java:195-208 | modelling choice that no test pins (the test shows only the IfExists case): a string, numeric or boolean clause, positive or negated, over an absent key without IfExists or a null key never holds |
| PolicyCondition.NegatedStringOperatorIsComplement | auth/server/src/test/java/com/seagates3/policy/BucketPolicyAuthorizerTest.java:55-193 | on a present value, StringNotEquals, StringNotEqualsIgnoreCase and StringNotLike are exactly the negations of their positive forms |
| PolicyCondition.NumericNotEqualsIsComplement | auth/server/src/test/java/com/seagates3/policy/BucketPolicyAuthorizerTest.java:210-254 | when every number parses, NumericNotEquals is exactly the negation of NumericEquals |
| PolicyCondition.EqualsImpliesEqualsIgnoreCase | auth/server/src/test/java/com/seagates3/policy/BucketPolicyAuthorizerTest.java:40-116 | a StringEquals match is also a StringEqualsIgnoreCase match |
| PolicyCondition.LikeWithoutWildcardsIsEquals | auth/server/src/test/java/com/seagates3/policy/BucketPolicyAuthorizerTest.java:150-193 | with no wildcard in any value, StringLike and StringEquals agree |
| PolicyCondition.NumericMeaning | auth/server/src/test/java/com/seagates3/policy/BucketPolicyAuthorizerTest.java:210-382 | NumericEquals and the four orderings hold iff the carried value parses and relates to at least one listed value that parses (or the key is absent under IfExists) |
| PolicyCondition.NumericNotEqualsMeaning | auth/server/src/test/java/com/seagates3/policy/BucketPolicyAuthorizerTest.java:225-239 | NumericNotEquals holds iff the carried value parses, the list is non-empty and every listed value parses to a different number (or the key is absent under IfExists) |
| PolicyCondition.NumericSingleValue | auth/server/src/test/java/com/seagates3/policy/BucketPolicyAuthorizerTest.java:210-382 | a one-value numeric clause on integers x and y is x = y, x ≠ y, x < y, x ≤ y, x > y or x ≥ y, according to the operator |
| PolicyCondition.NumericSingleParsed | auth/server/src/test/java/com/seagates3/policy/BucketPolicyAuthorizerTest.java:210-382 | the same comparison, for any two spellings that parse to x and y |
| PolicyCondition.BoolSingleValue | auth/server/src/test/java/com/seagates3/policy/BucketPolicyAuthorizerTest.java:399-456 | a one-value Bool clause over a present key holds iff the request carries that exact token and it is `true` or `false` |
| PolicyCondition.NullTrueIffAbsent | auth/server/src/test/java/com/seagates3/policy/BucketPolicyAuthorizerTest.java:651-678 | `Null ["true"]` holds iff the request does not carry the key |
| PolicyCondition.NullFalseIffValuePresent | auth/server/src/test/java/com/seagates3/policy/BucketPolicyAuthorizerTest.java:680-708 | `Null ["false"]` holds iff the request carries the key with a non-null value |
| PolicyCondition.ConditionBlockConcat | auth/server/src/test/java/com/seagates3/policy/BucketPolicyAuthorizerTest.java:40-52 | joining two blocks gives the conjunction of their outcomes |
| PolicyCondition.ConditionOrderIrrelevant | auth/server/src/test/java/com/seagates3/policy/BucketPolicyAuthorizerTest.java:40-52 | any permutation of a block's clauses leaves its outcome unchanged |
| PolicyConditionCases.StringEqualsCases | auth/server/src/test/java/com/seagates3/policy/BucketPolicyAuthorizerTest.java:40-84 | StringEquals abc/abc holds, pqr/abc does not; StringNotEquals ABC/abc holds |
| PolicyConditionCases.StringEqualsIgnoreCaseCases | auth/server/src/test/java/com/seagates3/policy/BucketPolicyAuthorizerTest.java:86-148 | abc/Abc matches ignoring case, abc/pqr does not; the negated form holds for pqr and fails for abC |
| PolicyConditionCases.StringLikeCases | auth/server/src/test/java/com/seagates3/policy/BucketPolicyAuthorizerTest.java:150-193 | `ab?` matches abc, `a*d` does not, so StringNotLike `a*d` holds |
| PolicyConditionCases.StringEqualsIfExistsCase | auth/server/src/test/java/com/seagates3/policy/BucketPolicyAuthorizerTest.java:195-208 | StringEqualsIfExists holds when the request lacks the key |
| PolicyConditionCases.NumericEqualsCases | auth/server/src/test/java/com/seagates3/policy/BucketPolicyAuthorizerTest.java:210-254 | 10 = 10 holds, 11 ≠ 10 holds, 10 = 11 does not |
| PolicyConditionCases.NumericGreaterThanCases | auth/server/src/test/java/com/seagates3/policy/BucketPolicyAuthorizerTest.java:256-286 | 11 > 10 holds, 9 > 10 does not |
| PolicyConditionCases.NumericGreaterThanEqualsCases | auth/server/src/test/java/com/seagates3/policy/BucketPolicyAuthorizerTest.java:288-318 | 10 ≥ 10 holds, 9 ≥ 10 does not |
| PolicyConditionCases.NumericLessThanCases | auth/server/src/test/java/com/seagates3/policy/BucketPolicyAuthorizerTest.java:320-350 | 9 < 10 holds, 10 < 10 does not |
| PolicyConditionCases.NumericLessThanEqualsCases | auth/server/src/test/java/com/seagates3/policy/BucketPolicyAuthorizerTest.java:352-382 | 10 ≤ 10 holds, 11 ≤ 10 does not |
| PolicyConditionCases.NumericEqualsIfExistsCase | auth/server/src/test/java/com/seagates3/policy/BucketPolicyAuthorizerTest.java:384-397 | NumericEqualsIfExists holds when the request lacks the key |
| PolicyConditionCases.BoolCases | auth/server/src/test/java/com/seagates3/policy/BucketPolicyAuthorizerTest.java:399-427 | Bool true/true holds, true/false does not |
| PolicyConditionCases.BoolIfExistsCases | auth/server/src/test/java/com/seagates3/policy/BucketPolicyAuthorizerTest.java:429-456 | BoolIfExists holds for an absent key and fails for a present key with the other token |
| PolicyConditionCases.NullCases | auth/server/src/test/java/com/seagates3/policy/BucketPolicyAuthorizerTest.java:651-708 | Null true holds for an absent key and not for a present one; Null false holds for a value and not for null |
| PolicyConditionCases.NullIfExistsCase | auth/server/src/test/java/com/seagates3/policy/BucketPolicyAuthorizerTest.java:710-723 | NullIfExists false does not hold for a present key |
| Decimal.ParseInt | auth/server/src/test/java/com/seagates3/policy/BucketPolicyAuthorizerTest.java:210-382 | a parsed number needs non-empty text and is negative only when written with '-' |
| Decimal.ParseFormatInt | auth/server/src/test/java/com/seagates3/policy/BucketPolicyAuthorizerTest.java:210-382 | writing any integer in decimal and parsing it back gives the integer |
| Decimal.FormatNat | server/s3_put_multiobject_action.cc:225 | the decimal text is non-empty, all digits, with no leading zero except for 0 itself |
| Decimal.ParseFormatNat | server/s3_put_multiobject_action.cc:225 | the Content-Length text parses back to the length it was written from |
| ObjectMetadata.SevenStates | server/s3_object_metadata.h:35-43 | a record's state is one of exactly seven values |
| ObjectMetadata.BucketIndexName | server/s3_object_metadata.h:88-90 | the bucket index name is `BUCKET/` followed by the bucket name |
| ObjectMetadata.BucketIndexNameRoundTrip | server/s3_object_metadata.h:88-90 | a bucket index name decodes back to its bucket |
| ObjectMetadata.MultipartIndexName | server/s3_object_metadata.h:92-94 | the multipart index name is the bucket index name followed by `/Multipart` |
| ObjectMetadata.BucketIndexNameIsStrictPrefix | server/s3_object_metadata.h:88-94 | a bucket's index name is a strict prefix of its multipart index name |
| ObjectMetadata.IndexNamesDisjoint | server/s3_object_metadata.h:88-94 | for bucket names without '/', no bucket index name equals any multipart index name |
| ObjectMetadata.S3ObjectMetadata.constructor | server/s3_object_metadata.h:85 | a new record keeps the multipart flag and upload id it is given (the parameters declared at :85) and the bucket and object the request names, and starts in state `empty` ("initial state, no lookup done", :36); nothing is promised about the other fields |
| ObjectMetadata.S3ObjectMetadata.GetBucketIndexName | server/s3_object_metadata.h:88-90 | the record's bucket index name decodes back to the record's bucket |
| ObjectMetadata.S3ObjectMetadata.GetMultipartIndexName | server/s3_object_metadata.h:92-94 | extends the bucket index name; read as a bucket index it would name `bucket + "/Multipart"` |
| ObjectMetadata.S3ObjectMetadata.SetOid | server/s3_object_metadata.h:103-109 | after setting, `get_oid` returns the id; no other field changes |
| ObjectMetadata.S3ObjectMetadata.MarkInvalid | server/s3_object_metadata.h:153-156 | the state becomes `invalid`; no other field changes |
| ObjectMetadata.S3ObjectMetadata.MarkAsNonMultipart | server/s3_object_metadata.h:158-160 | the multipart flag is cleared; no other field changes |
| PutMultipart.PlannedSteps | server/s3_put_multiobject_action.cc:34-47 | 6 steps for part 1, 7 otherwise: the first-part fetch is queued iff the part is not part 1, right after the two fetches; create, stream, save, respond close the list |
| PutMultipart.PlannedStepsOrder | server/s3_put_multiobject_action.cc:34-47 | no step is queued twice and every fetch precedes object creation |
| PutMultipart.PutMultiObjectAction.constructor | server/s3_put_multiobject_action.cc:27-32 | a new action holds its part number and upload id, nothing to stream, and exactly the planned steps queued |
| PutMultipart.PutMultiObjectAction.SetupSteps | server/s3_put_multiobject_action.cc:34-47 | appends exactly the planned steps to the task list |
| PutMultipart.WriteOffset | server/s3_put_multiobject_action.cc:92-101 | the offset is 0 for part 1, and for any part whose part-1 metadata is not present |
| PutMultipart.WriteOffsetIsPartIndexTimesSize | server/s3_put_multiobject_action.cc:95-101 | without size_t wrap-around, part N starts at (N − 1) × part-1 size |
| PutMultipart.PartsAreContiguous | server/s3_put_multiobject_action.cc:95-101 | without wrap-around, part m + 1 starts where part m ends, and part m ends before any later part starts |
| PutMultipart.CreateObjectDecision | server/s3_put_multiobject_action.cc:90-120 | without the bucket present, respond at once; part 1 creates the object at offset 0; later parts skip creation with the computed offset |
| PutMultipart.AfterCreateFailed | server/s3_put_multiobject_action.cc:122-138 | a failed create goes on to stream iff the object already exists, otherwise it responds |
| PutMultipart.PutMultiObjectAction.StartDataStreaming | server/s3_put_multiobject_action.cc:140-163 | records the content length; a zero-length part goes straight to saving metadata, a fully buffered body is written, otherwise the action listens for data |
| PutMultipart.PlanWrite | server/s3_put_multiobject_action.cc:172-185 | the last buffer is written and followed by the more-data check; an earlier one pauses reading and only resumes it once written |
| PutMultipart.AfterWriteSuccessful | server/s3_put_multiobject_action.cc:187-195 | the action advances iff no buffered input remains |
| PutMultipart.FindFrom | server/s3_put_multiobject_action.cc:208 | the result is the first position at or after the start where the pattern occurs, or none when it occurs nowhere |
| PutMultipart.IsUserMetaHeader | server/s3_put_multiobject_action.cc:208 | a header qualifies iff `x-amz-meta-` occurs somewhere in its name |
| PutMultipart.UserMetaHeaderIsSubstringTest | server/s3_put_multiobject_action.cc:207-211 | names starting with the marker qualify, and so do names that merely contain it |
| PutMultipart.UserMetaHeaderHasLowerX | server/s3_put_multiobject_action.cc:208 | the test is case-sensitive: a qualifying name contains a lower-case `x` |
| PutMultipart.CollectUserDefinedAttributes | server/s3_put_multiobject_action.cc:207-211 | exactly the qualifying request headers are copied, each with its value unchanged |
| PutMultipart.PutMultiObjectAction.SaveMetadataRecord | server/s3_put_multiobject_action.cc:202-214 | the part record holds the upload id, part number, Content-Length text, writer MD5 and exactly the qualifying headers |
| PutMultipart.OutcomeAsWritten | server/s3_put_multiobject_action.cc:216-273 | the branch chain as written: it gets stuck only when the writer or part record is absent, and succeeds only for a saved part |
| PutMultipart.WriterDereferencedWhenAbsent | server/s3_put_multiobject_action.cc:251 | a part-1 upload whose upload-metadata load failed reaches the writer check with no writer |
| PutMultipart.ResponseOutcome | server/s3_put_multiobject_action.cc:216-273 | NoSuchBucket iff the bucket is missing; else NoSuchUpload iff the upload is missing; else ServiceUnavailable iff part 1 is missing; success iff the write did not fail and the part was saved |
| PutMultipart.ResponseOutcomeAgreesWithAsWritten | server/s3_put_multiobject_action.cc:216-273 | wherever the code as written answers, the corrected chain gives the same answer |
| PutMultipart.ResponseFor | server/s3_put_multiobject_action.cc:219-263 | success carries only the ETag; an error carries its XML body, Content-Type `application/xml`, a Content-Length that parses to the body's length, and `Retry-After: 1` exactly for ServiceUnavailable |

## Left out

- Date operators (`DateEquals` and the rest): their tests are commented out and the model treats them as unrecognised, so they never match.
- Numbers are decimal integers only. Fractions, exponents and the Java parser's overflow behaviour are not modelled.
- Case folding covers ASCII letters only. Non-ASCII case mappings are not modelled.
- Parsing policy JSON into conditions, and evaluating a whole policy (principals, actions, resources, effect), are outside the evaluator modelled here.
- PolicyCondition.MatchClause: `NullIfExists` is modelled as never holding. The test pins only one case of it.
- PolicyCondition.MissingValueNeverMatches: no test puts a string, numeric or boolean clause over an absent or null key. The model makes every such clause false, negated operators included. The other reading, where a negated operator holds when no value is present, is not modelled.
- PolicyCondition.NullTrueIffAbsent: a key present with null makes `Null ["true"]` false. No test pins that case; the model follows the absent-only reading.
- The action's asynchronous plumbing is not modelled: pausing and resuming the request, listening for data, timers, logging, `done`/`i_am_done`, and the callbacks that chain steps. Each step's decision is modelled over the states it reads.
- The failure callbacks (`fetch_multipart_failed`, `fetch_firstpart_info_failed`, `write_object_failed`) are not separate members. Each goes straight to the response, and ResponseOutcome covers every state they can leave behind.
- PutMultipart.CreateObjectDecision: when part 1's metadata is not present for a later part, the source sends a response and still carries on with a writer at offset 0. The model only records this in `alsoResponded` and claims nothing further.
- `BucketOtherState`, `PartOtherState` and `WriterOtherState` stand for enum values whose definitions are not part of this model.
- The bodies of `to_xml`, `get_http_status_code`, `get_part_number`, `get_content_md5` and the request's header accessors are not part of this model. They become parameters: the part number, the MD5 text and an error-body function. PutMultipart.PutMultiObjectAction.SaveMetadataRecord also relies on two bodies that are only declared: it takes the fresh `S3PartMetadata` at s3_put_multiobject_action.cc:204 to start with no user-defined attributes, and `add_user_defined_attribute` to store each pair unchanged.
- ObjectMetadata.S3ObjectMetadata.constructor: it is only declared in s3_object_metadata.h. Only the fields it stores from its arguments and the initial `empty` state are promised; the attribute maps, account, user, object id and key URI it starts with are not.
- `load`, `save`, `remove`, the JSON conversion, the ACL, the date getters and `validate` of `S3ObjectMetadata` are only declared in s3_object_metadata.h and are left out.
- `get_state` and `get_oid` are plain reads and are modelled as reads-only functions without contracts of their own.
- ObjectMetadata.S3ObjectMetadata.GetUserAttributes: `get_user_attributes` returns a non-const reference to the record's own map, so a caller can change the record through it. The model returns a copy and does not capture that aliasing.

## Findings

| source | as written | input that shows it | evidently intended | confidence | as-written member | corrected member |
|---|---|---|---|---|---|---|
| server/s3_put_multiobject_action.cc:251 | `clovis_writer` is read without a null check, and so is `part_metadata` at line 260 | part 1 of an upload whose multipart metadata fails to load with state `failed`: the failure handler responds before any writer or part record exists | answer InternalError, as the final branch does | medium; not executed | PutMultipart.WriterDereferencedWhenAbsent | PutMultipart.ResponseOutcome |
