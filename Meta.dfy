/** The metadata adapter: the asset URL of today's image and the record the rest
    of the pipeline works on. */
module Meta {
  import opened Common
  import opened Paths

  const BingBase: string := "https://www.bing.com"
  const Resolution: string := "1920x1080"
  const Extension: string := ".jpg"
  /** What every asset URL ends with: "_1920x1080.jpg". */
  const UrlSuffix: string := "_" + Resolution + Extension

  /** The wallpaper directory of the current user. */
  function WallDir(user: string): string {
    "/Users/" + user + "/Pictures/BingWallpapers"
  }

  /** One entry of the provider's `images` array; a field may be absent. */
  datatype Entry = Entry(urlbase: Option<string>, copyright: Option<string>)

  /** The parsed metadata document; `images` may be absent. */
  datatype Doc = Doc(images: Option<seq<Entry>>)

  /** The record built by the adapter and passed along the pipeline. */
  datatype ImageRecord = ImageRecord(
    fileName: string,
    url: string,
    physicalPath: string,
    copyright: Option<string>)

  /** How a template literal renders a property: an absent one as "undefined". */
  function TemplateText(v: Option<string>): string {
    match v
    case Some(s) => s
    case None => "undefined"
  }

  /** The full-resolution asset URL of an entry; none for a missing entry. */
  function FhdImageUrl(image: Option<Entry>): (url: Option<string>)
    ensures url.None? <==> image.None?
    ensures url.Some? ==>
      var u := url.value;
      var base := TemplateText(image.value.urlbase);
      |u| == |BingBase| + |base| + |UrlSuffix|
      && u[..|BingBase|] == BingBase
      && u[|BingBase|..|BingBase| + |base|] == base
      && u[|BingBase| + |base|..] == UrlSuffix
  {
    match image
    case None => None
    case Some(e) => Some(BingBase + TemplateText(e.urlbase) + UrlSuffix)
  }

  /** Two entries give the same asset URL exactly when their url bases render alike. */
  lemma FhdImageUrlInjective(a: Entry, b: Entry)
    ensures FhdImageUrl(Some(a)) == FhdImageUrl(Some(b))
            <==> TemplateText(a.urlbase) == TemplateText(b.urlbase)
  {
    var ua, ub := FhdImageUrl(Some(a)).value, FhdImageUrl(Some(b)).value;
    if ua == ub {
      var n := |ua| - |BingBase| - |UrlSuffix|;
      assert TemplateText(a.urlbase) == ua[|BingBase|..|BingBase| + n];
    }
  }

  /** The truthy document whose first entry the adapter reads, if there is one. */
  predicate HasFirstImage(json: Option<Doc>) {
    json.Some? && json.value.images.Some? && |json.value.images.value| > 0
  }

  /** adapt_image_meta: no document is an error; a document without an `images`
      array, or with an empty one, makes `images[0]` or `path.basename(undefined)`
      throw a TypeError; otherwise the record is built from the first entry. */
  function AdaptImageMeta(user: string, json: Option<Doc>): (r: Result<ImageRecord>)
    ensures json.None? ==> r == Err(NoBingJson)
    ensures json.Some? && !HasFirstImage(json) ==> r == Err(TypeError)
    ensures r.Ok? <==> HasFirstImage(json)
    ensures r.Ok? ==>
      var first := json.value.images.value[0];
      Some(r.value.url) == FhdImageUrl(Some(first))
      && r.value.fileName == Basename(r.value.url)
      && r.value.physicalPath == WallDir(user) + "/" + r.value.fileName
      && r.value.copyright == first.copyright
  {
    if json.None? then Err(NoBingJson)
    else if json.value.images.None? then Err(TypeError)
    else
      var images := json.value.images.value;
      var todaysImage := if |images| > 0 then Some(images[0]) else None;
      match FhdImageUrl(todaysImage)
      case None => Err(TypeError)
      case Some(fhdUrl) =>
        var fileName := Basename(fhdUrl);
        Ok(ImageRecord(fileName, fhdUrl, WallDir(user) + "/" + fileName, todaysImage.value.copyright))
  }

  /** The basename of an asset URL is the text after its last '/': the last
      segment of the host and url base, followed by the resolution suffix. */
  lemma FileNameOfUrl(base: string)
    ensures Basename(BingBase + base + UrlSuffix) == AfterLastSlash(BingBase + base) + UrlSuffix
  {
    var head := BingBase + base;
    var url := head + UrlSuffix;
    UrlSuffixFacts();
    assert url[|url| - 1] == UrlSuffix[|UrlSuffix| - 1];
    BasenameOfUnslashed(url);
    AfterLastSlashAppend(head, UrlSuffix);
  }

  /** The last segment of the host and url base is shorter than them: the host
      holds a '/'. */
  lemma HostHasSlash(base: string)
    ensures |AfterLastSlash(BingBase + base)| < |BingBase + base|
  {
    var head := BingBase + base;
    var lead := AfterLastSlash(head);
    UrlSuffixFacts();
    assert head[6] == BingBase[6];
  }

  lemma UrlSuffixFacts()
    ensures UrlSuffix == "_1920x1080.jpg"
    ensures NoSlash(UrlSuffix)
    ensures UrlSuffix[|UrlSuffix| - 1] == 'g'
    ensures BingBase[6] == '/'
  {
  }

  /** The derived names of a record whose URL is that of an entry with url base
      `base` and whose physical path is in the wallpaper directory of `user`. */
  predicate NamedAsAdapted(user: string, base: string, rec: ImageRecord) {
    rec.url == BingBase + base + UrlSuffix
    && rec.fileName == Basename(rec.url)
    && rec.physicalPath == WallDir(user) + "/" + rec.fileName
  }

  /** The file name of an asset URL is its last segment, ending in the suffix. */
  lemma FileNameSegment(base: string, name: string)
    requires name == Basename(BingBase + base + UrlSuffix)
    ensures name == AfterLastSlash(BingBase + base + UrlSuffix)
    ensures |name| < |BingBase + base + UrlSuffix|
    ensures IsSuffix(UrlSuffix, name)
  {
    FileNameOfUrl(base);
    HostHasSlash(base);
    UrlSuffixFacts();
  }

  /** A name ending in the resolution suffix ends in the extension. */
  lemma ExtensionOfSuffix(name: string)
    requires IsSuffix(UrlSuffix, name)
    ensures IsSuffix(Extension, name) && name != []
  {
    UrlSuffixFacts();
    assert name[|name| - |Extension|..] == UrlSuffix[|UrlSuffix| - |Extension|..];
  }

  lemma DerivedNames(user: string, base: string, rec: ImageRecord)
    requires NamedAsAdapted(user, base, rec)
    ensures NoSlash(rec.fileName)
    ensures IsSuffix(rec.fileName, rec.url)
    ensures |rec.fileName| < |rec.url| && rec.url[|rec.url| - |rec.fileName| - 1] == '/'
    ensures IsSuffix(UrlSuffix, rec.fileName)
    ensures IsSuffix(Extension, rec.fileName)
    ensures rec.fileName != []
    ensures IsPrefix(WallDir(user) + "/", rec.physicalPath)
    ensures Basename(rec.physicalPath) == rec.fileName
  {
    FileNameSegment(base, rec.fileName);
    ExtensionOfSuffix(rec.fileName);
    BasenameOfJoin(WallDir(user), rec.fileName);
  }

  /** What the adapter promises about the derived names: the file name is the last
      '/'-separated segment of the URL (slash-free, a suffix of it, right after a
      '/'), non-empty, ends in "_1920x1080.jpg" and so in ".jpg"; the physical path
      sits in the wallpaper directory and names that same file. */
  lemma AdaptedNames(user: string, json: Option<Doc>, rec: ImageRecord)
    requires AdaptImageMeta(user, json) == Ok(rec)
    ensures NoSlash(rec.fileName)
    ensures IsSuffix(rec.fileName, rec.url)
    ensures |rec.fileName| < |rec.url| && rec.url[|rec.url| - |rec.fileName| - 1] == '/'
    ensures IsSuffix(UrlSuffix, rec.fileName)
    ensures IsSuffix(Extension, rec.fileName)
    ensures rec.fileName != []
    ensures IsPrefix(WallDir(user) + "/", rec.physicalPath)
    ensures Basename(rec.physicalPath) == rec.fileName
  {
    var first := json.value.images.value[0];
    var base := TemplateText(first.urlbase);
    var url := BingBase + base + UrlSuffix;
    assert FhdImageUrl(Some(first)) == Some(url);
    assert NamedAsAdapted(user, base, rec);
    DerivedNames(user, base, rec);
  }
}
