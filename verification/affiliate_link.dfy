/** `generateAmazonLink` of `lib/cosmic.ts`: a store product URL for an ISBN
    with an affiliate tag. The ISBN is not validated; only hyphens are removed.
    The `AMAZON_AFFILIATE_TAG` environment value is a parameter. */
module AffiliateLink {
  import opened Wrappers
  import opened Text

  const StorePrefix := "https://www.amazon.com/dp/"
  const TagQuery := "?tag="
  const DefaultTag := "cosmicjs-20"

  /** The one character `isbn.replace(/-/g, '')` removes. */
  predicate IsDash(c: char) {
    c == '-'
  }

  /** `affiliateTag || env || 'cosmicjs-20'`: the first truthy candidate. */
  function PickTag(affiliateTag: Option<string>, envTag: Option<string>): (t: string)
    ensures t != ""
    ensures Given(affiliateTag) ==> t == affiliateTag.value
    ensures !Given(affiliateTag) && Given(envTag) ==> t == envTag.value
    ensures !Given(affiliateTag) && !Given(envTag) ==> t == DefaultTag
  {
    if Given(affiliateTag) then affiliateTag.value
    else if Given(envTag) then envTag.value
    else DefaultTag
  }

  /** `generateAmazonLink(isbn, affiliateTag)`. */
  function AmazonLink(isbn: string, affiliateTag: Option<string>, envTag: Option<string>): (url: string)
    ensures StartsWith(url, StorePrefix)
    ensures |url| == |StorePrefix| + |Without(isbn, IsDash)| + |TagQuery| + |PickTag(affiliateTag, envTag)|
    ensures forall i :: |StorePrefix| <= i < |StorePrefix| + |Without(isbn, IsDash)| ==> url[i] != '-'
  {
    StorePrefix + Without(isbn, IsDash) + TagQuery + PickTag(affiliateTag, envTag)
  }

  /** Splits the part after the store prefix at its first `?`, which must
      open the `?tag=` query. */
  function SplitAtQuery(rest: string): (r: Option<(string, string)>)
    ensures r.Some? ==> rest == r.value.0 + TagQuery + r.value.1 && '?' !in r.value.0
  {
    match IndexOf(rest, '?')
    case None => None
    case Some(k) =>
      if StartsWith(rest[k..], TagQuery) then
        assert rest == rest[..k] + rest[k..];
        assert rest[k..] == TagQuery + rest[k + |TagQuery|..];
        Some((rest[..k], rest[k + |TagQuery|..]))
      else None
  }

  /** Reads a product URL back into its ISBN part and its tag. */
  function ParseLink(url: string): (r: Option<(string, string)>)
    ensures r.Some? ==> url == StorePrefix + r.value.0 + TagQuery + r.value.1 && '?' !in r.value.0
  {
    if !StartsWith(url, StorePrefix) then None
    else
      var rest := url[|StorePrefix|..];
      assert url == StorePrefix + rest;
      SplitAtQuery(rest)
  }

  /** Round trip: the link carries the ISBN with its hyphens removed and the
      chosen tag, and both can be read back, provided the ISBN has no `?`. */
  lemma LinkRoundTrip(isbn: string, affiliateTag: Option<string>, envTag: Option<string>)
    requires '?' !in isbn
    ensures ParseLink(AmazonLink(isbn, affiliateTag, envTag)) == Some((Without(isbn, IsDash), PickTag(affiliateTag, envTag)))
  {
    var clean := Without(isbn, IsDash);
    if '?' in clean {
      WithoutOnlyKeeps(isbn, IsDash, '?');
    }
    ParseComposed(clean, PickTag(affiliateTag, envTag));
  }

  lemma ParseComposed(part: string, tag: string)
    requires '?' !in part
    ensures ParseLink(StorePrefix + part + TagQuery + tag) == Some((part, tag))
  {
    var url := StorePrefix + part + TagQuery + tag;
    var rest := part + TagQuery + tag;
    assert url == StorePrefix + rest;
    assert url[|StorePrefix|..] == rest;
    FirstQuestionMark(part, TagQuery + tag);
    assert rest == part + (TagQuery + tag);
    assert rest[|part|..] == TagQuery + tag;
  }

  lemma FirstQuestionMark(a: string, b: string)
    requires '?' !in a && |b| > 0 && b[0] == '?'
    ensures IndexOf(a + b, '?') == Some(|a|)
  {
    assert (a + b)[|a|] == '?';
    assert forall k :: 0 <= k < |a| ==> (a + b)[k] == a[k];
  }

  /** Two ISBNs that differ only in hyphens give the same link. */
  lemma HyphensIgnored(isbn: string, affiliateTag: Option<string>, envTag: Option<string>)
    ensures AmazonLink(isbn, affiliateTag, envTag) == AmazonLink(Without(isbn, IsDash), affiliateTag, envTag)
  {
    WithoutNothingToDrop(Without(isbn, IsDash), IsDash);
  }

  /** No validation and no other cleaning: an ISBN without hyphens, spaces
      and letters included, is copied into the link as it is. */
  lemma CopiedVerbatim(isbn: string, affiliateTag: Option<string>, envTag: Option<string>)
    requires '-' !in isbn
    ensures AmazonLink(isbn, affiliateTag, envTag) == StorePrefix + isbn + TagQuery + PickTag(affiliateTag, envTag)
  {
    WithoutNothingToDrop(isbn, IsDash);
  }
}
