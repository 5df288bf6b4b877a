/** The breach check against a k-anonymity range service: the password's SHA-1
    digest is written in upper-case hexadecimal, its first five characters are
    sent to the service, and the password counts as breached when the rest of
    the digest occurs in the service's answer. The hash function and the HTTP
    request are parameters of the model. */
module Breach {
  import opened Text

  /** The address the digest prefix is appended to. */
  const RangeEndpoint := "https://api.pwnedpasswords.com/range/"

  /** How many leading digest characters are sent to the service. */
  const PrefixLength: nat := 5

  /** A SHA-1 digest in hexadecimal has forty characters. */
  const DigestLength: nat := 40

  /** The two halves of the digest: the part that is sent and the part that is not. */
  datatype HashRange = HashRange(prefix: string, suffix: string)

  predicate IsLowerHexChar(c: char) { IsAsciiDigit(c) || 'a' <= c <= 'f' }

  predicate IsUpperHexChar(c: char) { IsAsciiDigit(c) || 'A' <= c <= 'F' }

  /** What `hexdigest()` returns: forty lower-case hexadecimal characters. */
  predicate IsHexDigest(d: string)
  {
    |d| == DigestLength && forall i :: 0 <= i < |d| ==> IsLowerHexChar(d[i])
  }

  /** `digest[:5]` and `digest[5:]`. Python's slices are total, so a digest
      shorter than five characters is all prefix. */
  function SplitDigest(digest: string): (r: HashRange)
    ensures r.prefix + r.suffix == digest
    ensures |r.prefix| == if |digest| < PrefixLength then |digest| else PrefixLength
  {
    if |digest| < PrefixLength then HashRange(digest, "")
    else HashRange(digest[..PrefixLength], digest[PrefixLength..])
  }

  /** The request address for one prefix. */
  function RangeUrl(prefix: string): (url: string)
    ensures |url| == |RangeEndpoint| + |prefix|
    ensures url[..|RangeEndpoint|] == RangeEndpoint
    ensures url[|RangeEndpoint|..] == prefix
  {
    RangeEndpoint + prefix
  }

  /** The digest of the password as the breach check uses it: the hash
      function's hexadecimal output in upper case. */
  function UpperDigest(password: string, sha1Hex: string -> string): (d: string)
    ensures |d| == |sha1Hex(password)|
    ensures forall i :: 0 <= i < |d| ==> d[i] == UpperChar(sha1Hex(password)[i])
    ensures IsHexDigest(sha1Hex(password)) ==> forall i :: 0 <= i < |d| ==> IsUpperHexChar(d[i])
    ensures IsHexDigest(sha1Hex(password)) ==> ToLower(d) == sha1Hex(password)
  {
    var h := sha1Hex(password);
    assert IsHexDigest(h) ==> forall i :: 0 <= i < |h| ==> LowerChar(UpperChar(h[i])) == h[i];
    ToUpper(h)
  }

  /** `check_breach`: the answer to the range request for the digest's prefix
      is searched for the digest's suffix. The result is true exactly when the
      suffix occurs somewhere in the answer. */
  function CheckBreach(password: string, sha1Hex: string -> string, httpGet: string -> string): (breached: bool)
    ensures var range := SplitDigest(UpperDigest(password, sha1Hex));
            breached <==> exists i :: OccursAt(httpGet(RangeUrl(range.prefix)), range.suffix, i)
  {
    var range := SplitDigest(UpperDigest(password, sha1Hex));
    var body := httpGet(RangeUrl(range.prefix));
    ContainsIffOccurs(body, range.suffix);
    Contains(body, range.suffix)
  }

  // ---------------------------------------------------------------------------
  // Properties

  /** A well-formed digest becomes forty upper-case hexadecimal characters, of
      which five are sent and thirty-five are kept back. */
  lemma DigestSplitsFiveAndThirtyFive(password: string, sha1Hex: string -> string)
    requires IsHexDigest(sha1Hex(password))
    ensures var range := SplitDigest(UpperDigest(password, sha1Hex));
            |range.prefix| == 5 && |range.suffix| == 35
            && (forall i :: 0 <= i < |range.suffix| ==> IsUpperHexChar(range.suffix[i]))
  {
  }

  /** The endpoint is written with lower-case letters and punctuation only, so no
      character of it can be part of an upper-case hexadecimal digest. */
  lemma EndpointHasNoHexDigit(k: int)
    requires 0 <= k < |RangeEndpoint|
    ensures !IsUpperHexChar(RangeEndpoint[k])
  {
  }

  /** The request never carries the part of the digest that is kept back: for a
      well-formed digest the suffix does not occur anywhere in the address. */
  lemma SuffixNeverSent(password: string, sha1Hex: string -> string)
    requires IsHexDigest(sha1Hex(password))
    ensures var range := SplitDigest(UpperDigest(password, sha1Hex));
            forall i :: !OccursAt(RangeUrl(range.prefix), range.suffix, i)
  {
    DigestSplitsFiveAndThirtyFive(password, sha1Hex);
    var range := SplitDigest(UpperDigest(password, sha1Hex));
    var url := RangeUrl(range.prefix);
    forall i | OccursAt(url, range.suffix, i)
      ensures false
    {
      assert url[i] == range.suffix[0];
      assert i < |RangeEndpoint|;
      assert url[i] == RangeEndpoint[i];
      EndpointHasNoHexDigit(i);
    }
  }

  /** An answer that lists the suffix reports the password as breached. */
  lemma ListedSuffixIsBreached(password: string, sha1Hex: string -> string, httpGet: string -> string,
                               before: string, after: string)
    requires var range := SplitDigest(UpperDigest(password, sha1Hex));
             httpGet(RangeUrl(range.prefix)) == before + range.suffix + after
    ensures CheckBreach(password, sha1Hex, httpGet)
  {
    var range := SplitDigest(UpperDigest(password, sha1Hex));
    var body := httpGet(RangeUrl(range.prefix));
    assert body[|before|..|before| + |range.suffix|] == range.suffix;
    assert OccursAt(body, range.suffix, |before|);
  }

  /** An empty answer reports a well-formed digest as safe. */
  lemma EmptyAnswerIsSafe(password: string, sha1Hex: string -> string, httpGet: string -> string)
    requires IsHexDigest(sha1Hex(password))
    requires httpGet(RangeUrl(SplitDigest(UpperDigest(password, sha1Hex)).prefix)) == ""
    ensures !CheckBreach(password, sha1Hex, httpGet)
  {
  }

  /** Two passwords whose digests agree on the first five characters lead to the
      same request: the service learns the prefix and nothing else. */
  lemma RequestDependsOnlyOnPrefix(p: string, q: string, sha1Hex: string -> string)
    requires IsHexDigest(sha1Hex(p)) && IsHexDigest(sha1Hex(q))
    requires UpperDigest(p, sha1Hex)[..PrefixLength] == UpperDigest(q, sha1Hex)[..PrefixLength]
    ensures RangeUrl(SplitDigest(UpperDigest(p, sha1Hex)).prefix)
         == RangeUrl(SplitDigest(UpperDigest(q, sha1Hex)).prefix)
  {
  }
}
