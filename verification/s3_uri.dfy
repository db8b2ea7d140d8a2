/** S3 object addresses of the form `s3://bucket/key`, as split by
    `generate_presigned_url` before it asks S3 for a signed link. */
module S3Uri {
  import opened Maybe
  import opened Text

  const Scheme: string := "s3://"

  datatype ObjectAddress = ObjectAddress(bucket: string, key: string)

  /** The S3 client's `generate_presigned_url('get_object', ...)`, given the
      bucket and key: a time-limited link, or `None` when the call raises. */
  type Signer = (string, string) -> Option<string>

  /** The parsing half of `generate_presigned_url`: without the `s3://`
      prefix there is no address; otherwise the bucket is the first
      `/`-piece of the rest and the key is the remaining pieces re-joined
      with `/` (empty when there is no `/` at all). */
  function SplitS3Uri(uri: string): (r: Option<ObjectAddress>)
    ensures r.None? <==> !(Scheme <= uri)
    ensures r.Some? ==> Free(r.value.bucket, '/')
    ensures r.Some? && Free(uri[|Scheme|..], '/') ==>
              r.value.bucket == uri[|Scheme|..] && r.value.key == ""
    ensures r.Some? && !Free(uri[|Scheme|..], '/') ==>
              uri == Scheme + r.value.bucket + "/" + r.value.key
  {
    if !(Scheme <= uri) then None
    else
      var path := uri[|Scheme|..];
      var parts := Split(path, '/');
      var address := ObjectAddress(parts[0], Join(parts[1..], '/'));
      assert Free(path, '/') ==> address.bucket == path && address.key == "" by {
        SplitSingle(path, '/');
        JoinSplit(path, '/');
      }
      assert !Free(path, '/') ==> uri == Scheme + address.bucket + "/" + address.key by {
        SplitSingle(path, '/');
        JoinSplit(path, '/');
        assert uri == Scheme + path;
      }
      Some(address)
  }

  /** Writing an address out and splitting it again recovers the bucket and
      the key, whatever `/`s the key holds. */
  lemma SplitS3UriRoundTrip(bucket: string, key: string)
    requires Free(bucket, '/')
    ensures SplitS3Uri(Scheme + bucket + "/" + key) == Some(ObjectAddress(bucket, key))
  {
    var uri := Scheme + bucket + "/" + key;
    assert uri[|Scheme|..] == bucket + ['/'] + key;
    SplitFreeThenSep(bucket, '/', key);
    JoinSplit(key, '/');
  }

  /** `generate_presigned_url`: `None` for a URI that is not an S3 address,
      otherwise whatever the signer returns for its bucket and key. */
  function GeneratePresignedUrl(uri: string, signer: Signer): (r: Option<string>)
    ensures !(Scheme <= uri) ==> r.None?
  {
    match SplitS3Uri(uri)
    case None => None
    case Some(address) => signer(address.bucket, address.key)
  }

  /** The link requested for `s3://bucket/key` is the signer's link for
      exactly that bucket and key. */
  lemma PresignedUrlSignsObject(bucket: string, key: string, signer: Signer)
    requires Free(bucket, '/')
    ensures GeneratePresignedUrl(Scheme + bucket + "/" + key, signer) == signer(bucket, key)
  {
    SplitS3UriRoundTrip(bucket, key);
  }
}
