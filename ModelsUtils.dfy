/** `modelsUtils` of the models file: reading a numeric id and a slug out of a url
    of the form `…/<id>-<slug>`. */
module ModelsUtils {
  import opened JsString
  import opened JsValue

  /** The text after the last '/' of a url, or the whole url when it has none. */
  function LastSegment(url: string): (seg: string)
    ensures |seg| <= |url| && seg == url[|url| - |seg|..]
    ensures '/' !in seg
    ensures |seg| < |url| ==> url[|url| - |seg| - 1] == '/'
  {
    SlashIndex(url);
    SubstrFrom(url, LastIndexOf(url, "/") + 1)
  }

  /** `lastIndexOf('/')` finds the last slash, or reports that there is none. */
  lemma SlashIndex(url: string)
    ensures LastIndexOf(url, "/") >= 0 ==> url[LastIndexOf(url, "/")] == '/'
    ensures forall k :: LastIndexOf(url, "/") < k < |url| ==> url[k] != '/'
  {
    var i := LastIndexOf(url, "/");
    if i >= 0 {
      OccursAtChar(url, '/', i);
    }
    forall k | i < k < |url|
      ensures url[k] != '/'
    {
      OccursAtChar(url, '/', k);
    }
  }

  /** Whatever precedes a last segment ending in '/' does not change it. */
  lemma {:induction false} LastSegmentOfJoin(prefix: string, seg: string)
    requires '/' !in seg
    requires prefix != [] && prefix[|prefix| - 1] == '/'
    ensures LastSegment(prefix + seg) == seg
  {
    var url := prefix + seg;
    var r := LastSegment(url);
    assert url[|url| - |seg| - 1] == '/';
    assert forall j :: 0 <= j < |r| ==> r[j] == url[|url| - |r| + j];
    assert forall j :: 0 <= j < |seg| ==> seg[j] == url[|url| - |seg| + j];
  }

  /** A character absent from a string is absent from each of its suffixes. */
  lemma SuffixKeepsAbsence(s: string, t: string, c: char)
    requires |t| <= |s| && t == s[|s| - |t|..]
    requires c !in s
    ensures c !in t
  {
    forall j | 0 <= j < |t| ensures t[j] != c {
      assert t[j] == s[|s| - |t| + j];
    }
  }

  lemma SlugOfUrlHasNoSlash(url: string)
    ensures '/' !in SlugText(LastSegment(url))
  {
    NoSlashInSlug(LastSegment(url));
  }

  /** The slug of a segment without '/' has none either. */
  lemma NoSlashInSlug(seg: string)
    requires '/' !in seg
    ensures '/' !in SlugText(seg)
  {
    var slug := SlugText(seg);
    SuffixKeepsAbsence(seg, slug, '/');
  }

  /** `k` is the position of the first '-' of `seg`. */
  predicate FirstHyphenAt(seg: string, k: int) {
    0 <= k < |seg| && seg[k] == '-' && '-' !in seg[..k]
  }

  /** `seg.substr(0, seg.indexOf('-'))`: the text before the first '-', and the empty
      text when there is none (a length of -1 is read as 0). */
  function IdText(seg: string): (t: string)
    ensures '-' !in seg ==> t == ""
    ensures forall k :: FirstHyphenAt(seg, k) ==> t == seg[..k]
  {
    HyphenIndex(seg);
    Substr(seg, 0, IndexOf(seg, "-"))
  }

  /** `seg.substr(seg.indexOf('-') + 1)`: the text after the first '-', and the whole
      segment when there is none (the start is then -1 + 1 = 0). */
  function SlugText(seg: string): (slug: string)
    ensures |slug| <= |seg| && slug == seg[|seg| - |slug|..]
    ensures '-' !in seg ==> slug == seg
    ensures forall k :: FirstHyphenAt(seg, k) ==> slug == seg[k + 1..]
  {
    HyphenIndex(seg);
    SubstrFrom(seg, IndexOf(seg, "-") + 1)
  }

  /** `modelsUtils.getInfoFromURL(url, info)`: `false` unless `info` is 'slug' or 'id';
      otherwise only the last segment of `url` is read: the id is the number its text
      before the first '-' denotes, the slug its text after it. A url that is not a
      string throws (an array has `lastIndexOf` but no `substr`). */
  function GetInfoFromURL(url: Value, info: Value): (r: Result<Value>)
    ensures info != Str("slug") && info != Str("id") ==> r == Ok(Bool(false))
    ensures (info == Str("slug") || info == Str("id")) && !url.Str? ==> r.Err?
    ensures url.Str? && info == Str("id") ==> r == Ok(NumberValue(IdText(LastSegment(url.s))))
    ensures url.Str? && info == Str("slug") ==> r == Ok(Str(SlugText(LastSegment(url.s))))
  {
    if info != Str("slug") && info != Str("id") then Ok(Bool(false))
    else if url.Arr? then Err(TypeError("url.substr is not a function"))
    else if !url.Str? then Err(TypeError("url.lastIndexOf is not a function"))
    else
      var seg := LastSegment(url.s);
      if info == Str("id") then Ok(NumberValue(IdText(seg)))
      else Ok(Str(SlugText(seg)))
  }

  /** `indexOf('-')` finds the first hyphen, or reports that there is none. */
  lemma HyphenIndex(seg: string)
    ensures IndexOf(seg, "-") < 0 <==> '-' !in seg
    ensures forall k :: FirstHyphenAt(seg, k) ==> IndexOf(seg, "-") == k
  {
    var h := IndexOf(seg, "-");
    if h >= 0 {
      OccursAtChar(seg, '-', h);
      forall j | 0 <= j < h ensures seg[j] != '-' {
        OccursAtChar(seg, '-', j);
      }
      assert FirstHyphenAt(seg, h);
    } else {
      forall j | 0 <= j < |seg| ensures seg[j] != '-' {
        OccursAtChar(seg, '-', j);
      }
    }
    forall k | FirstHyphenAt(seg, k) ensures h == k {
      OccursAtChar(seg, '-', k);
    }
  }

  /** `modelsUtils.getIDFromURL(url)`: a number (possibly NaN) for a string url. */
  function GetIDFromURL(url: Value): (r: Result<Value>)
    ensures r.Ok? <==> url.Str?
    ensures r.Ok? ==> r.value.Num? || r.value.NaN?
    ensures url.Str? ==> r.value == NumberValue(IdText(LastSegment(url.s)))
  {
    GetInfoFromURL(url, Str("id"))
  }

  /** `modelsUtils.getSlugFromURL(url)`: a string without '/' for a string url. */
  function GetSlugFromURL(url: Value): (r: Result<Value>)
    ensures r.Ok? <==> url.Str?
    ensures r.Ok? ==> r.value.Str? && '/' !in r.value.s
    ensures url.Str? ==> r.value == Str(SlugText(LastSegment(url.s)))
  {
    if url.Str? then SlugOfUrlHasNoSlash(url.s); GetInfoFromURL(url, Str("slug"))
    else GetInfoFromURL(url, Str("slug"))
  }

  /** Only the last segment of a url matters: the result for the whole url is the
      result for that segment alone. */
  lemma InfoDependsOnlyOnLastSegment(url: string, info: Value)
    ensures GetInfoFromURL(Str(url), info) == GetInfoFromURL(Str(LastSegment(url)), info)
  {
    LastSegmentOfPlain(LastSegment(url));
  }

  /** A text without '/' is its own last segment. */
  lemma LastSegmentOfPlain(s: string)
    requires '/' !in s
    ensures LastSegment(s) == s
  {
    var r := LastSegment(s);
    assert |r| == |s|;
  }

  /** The last segment `<id>-<slug>` of a templated url: no '/', the id's digits
      before its first '-' and the slug after it. */
  lemma TemplateSegment(id: nat, slug: string)
    requires '/' !in slug
    ensures var seg := NatToString(id) + "-" + slug;
      && '/' !in seg && IdText(seg) == NatToString(id) && SlugText(seg) == slug
  {
    var digits := NatToString(id);
    var seg := digits + "-" + slug;
    DigitsHaveNoSeparator(digits);
    forall j | 0 <= j < |seg| ensures seg[j] != '/' {
      if j < |digits| {
        assert seg[j] == digits[j];
      } else if j > |digits| {
        assert seg[j] == slug[j - |digits| - 1];
      }
    }
    assert FirstHyphenAt(seg, |digits|) by {
      assert seg[..|digits|] == digits;
    }
  }

  /** The url template `<prefix>/<id>-<slug>` (for users,
      'http://news.humancoders.com/users/<%= id %>-<%= slug %>') is read back to the
      id and the slug it was built from, whatever the prefix. */
  lemma {:induction false} TemplateRoundTrip(prefix: string, id: nat, slug: string)
    requires prefix != [] && prefix[|prefix| - 1] == '/'
    requires '/' !in slug
    ensures GetIDFromURL(Str(prefix + NatToString(id) + "-" + slug)) == Ok(Num(id))
    ensures GetSlugFromURL(Str(prefix + NatToString(id) + "-" + slug)) == Ok(Str(slug))
  {
    var seg := NatToString(id) + "-" + slug;
    TemplateSegment(id, slug);
    assert prefix + NatToString(id) + "-" + slug == prefix + seg;
    LastSegmentOfJoin(prefix, seg);
    NatToStringRoundTrip(id);
  }
}
