/**
 * The stateful side of src/rewrite-media.php: `rewrite_url` keeps its base URL and base
 * directory in function-static variables filled on the first call, and the four filter
 * adapters call it on the URLs inside WordPress's data shapes. One `MediaRewriter`
 * object stands for those static variables over the life of a PHP process.
 */
module MediaHooks {
  import opened Wrappers
  import opened RewriteMedia
  import opened ContentScan

  /** The PHP values found in the adapters' arrays. */
  datatype Value = Str(s: string) | Int(i: int) | Bool(b: bool) | Null

  /** PHP's `isset($a[$k])`: the key is present and its value is not null. */
  predicate IsSet<K>(a: map<K, Value>, k: K) {
    k in a && a[k] != Null
  }

  /** One entry of a srcset array: `array{url: string, descriptor: string, value: int}`. */
  datatype Source = Source(url: string, descriptor: string, value: int)

  /** A srcset array in iteration order, each source under its integer key. */
  datatype SrcsetEntry = SrcsetEntry(key: int, source: Source)

  class MediaRewriter {
    /** `static $baseUrl, $baseDir` of `rewrite_url`; `None` until the first call. */
    var baseUrl: Option<string>
    var baseDir: Option<string>

    constructor ()
      ensures baseUrl == None && baseDir == None
    {
      baseUrl, baseDir := None, None;
    }

    ghost predicate Loaded()
      reads this
    {
      baseUrl.Some? && baseDir.Some?
    }

    function Memo(): Bases
      reads this
      requires Loaded()
    {
      Bases(baseUrl.value, baseDir.value)
    }

    /**
     * The static variables after a call of `rewrite_url`, given their values before it:
     * filled from this call's host if either was unset, otherwise untouched.
     */
    ghost predicate LoadedFrom(oldUrl: Option<string>, oldDir: Option<string>, host: Host)
      reads this
    {
      if oldUrl.None? || oldDir.None? then
        baseUrl == Some(LoadBases(host).baseUrl) && baseDir == Some(LoadBases(host).baseDir)
      else
        baseUrl == oldUrl && baseDir == oldDir
    }

    /** `rewrite_url`. */
    method RewriteUrl(url: string, host: Host) returns (r: string)
      modifies this
      ensures LoadedFrom(old(baseUrl), old(baseDir), host) && Loaded()
      ensures r == Rewrite(Memo(), host, url)
    {
      if baseUrl.None? || baseDir.None? {
        var base := host.uploadDir;
        baseUrl := Some(host.normalize(base.baseurl));
        baseDir := Some(base.basedir);
      }
      if IsFalsy(url) {
        return url;
      }
      var compareUrl := host.normalize(url);
      if !StartsWith(compareUrl, baseUrl.value) {
        return url;
      }
      var relative := compareUrl[|baseUrl.value|..];
      if host.fileExists(baseDir.value + relative) {
        return url;
      }
      return GetRemoteUrl(host.remote) + relative;
    }

    /**
     * `filter_wp_get_attachment_image_src`: `None` is the `false` WordPress passes when
     * there is no image; element 0 is the URL, the others are width, height and flag.
     */
    method FilterImageSrc(image: Option<map<int, Value>>, host: Host) returns (r: Option<map<int, Value>>)
      requires image.Some? && IsSet(image.value, 0) ==> image.value[0].Str?
      modifies this
      ensures r.Some? == image.Some?
      ensures r.Some? ==> r.value.Keys == image.value.Keys
      ensures r.Some? ==> forall k :: k in image.value && k != 0 ==> r.value[k] == image.value[k]
      ensures if image.Some? && IsSet(image.value, 0) then
                LoadedFrom(old(baseUrl), old(baseDir), host) && Loaded()
                && r.value[0] == Str(Rewrite(Memo(), host, image.value[0].s))
              else
                r == image && baseUrl == old(baseUrl) && baseDir == old(baseDir)
    {
      if image.None? || !IsSet(image.value, 0) {
        return image;
      }
      var url := RewriteUrl(image.value[0].s, host);
      r := Some(image.value[0 := Str(url)]);
    }

    /** `filter_wp_get_attachment_image_attributes`: only `src` is rewritten. */
    method FilterImageAttributes(attributes: map<string, Value>, host: Host) returns (r: map<string, Value>)
      requires IsSet(attributes, "src") ==> attributes["src"].Str?
      modifies this
      ensures r.Keys == attributes.Keys
      ensures forall k :: k in attributes && k != "src" ==> r[k] == attributes[k]
      ensures if IsSet(attributes, "src") then
                LoadedFrom(old(baseUrl), old(baseDir), host) && Loaded()
                && r["src"] == Str(Rewrite(Memo(), host, attributes["src"].s))
              else
                r == attributes && baseUrl == old(baseUrl) && baseDir == old(baseDir)
    {
      if !IsSet(attributes, "src") {
        return attributes;
      }
      var url := RewriteUrl(attributes["src"].s, host);
      r := attributes["src" := Str(url)];
    }

    /** `filter_wp_calculate_image_srcset`: every source's `url` is rewritten in place. */
    method FilterSrcset(sources: seq<SrcsetEntry>, host: Host) returns (r: seq<SrcsetEntry>)
      modifies this
      ensures |r| == |sources|
      ensures forall i :: 0 <= i < |r| ==>
                && r[i].key == sources[i].key
                && r[i].source.descriptor == sources[i].source.descriptor
                && r[i].source.value == sources[i].source.value
      ensures if sources == [] then
                r == [] && baseUrl == old(baseUrl) && baseDir == old(baseDir)
              else
                LoadedFrom(old(baseUrl), old(baseDir), host) && Loaded()
                && forall i :: 0 <= i < |r| ==> r[i].source.url == Rewrite(Memo(), host, sources[i].source.url)
    {
      r := sources;
      var i := 0;
      while i < |r|
        invariant 0 <= i <= |r| == |sources|
        invariant i == 0 ==> baseUrl == old(baseUrl) && baseDir == old(baseDir)
        invariant i > 0 ==> LoadedFrom(old(baseUrl), old(baseDir), host) && Loaded()
        invariant forall j :: 0 <= j < |r| ==>
                    && r[j].key == sources[j].key
                    && r[j].source.descriptor == sources[j].source.descriptor
                    && r[j].source.value == sources[j].source.value
        invariant forall j :: i <= j < |r| ==> r[j] == sources[j]
        invariant i > 0 ==> forall j :: 0 <= j < i ==> r[j].source.url == Rewrite(Memo(), host, sources[j].source.url)
      {
        var url := RewriteUrl(r[i].source.url, host);
        r := r[i := r[i].(source := r[i].source.(url := url))];
        i := i + 1;
      }
    }

    /**
     * `filter_the_content`, with the quote characters kept around each rewritten URL
     * (see `ContentScan`); the loop in `ReplaceMatches` visits the matches left to right.
     */
    method FilterTheContent(content: string, host: Host) returns (r: string)
      modifies this
      ensures if AnyUrl(Tokenize(content)) then
                LoadedFrom(old(baseUrl), old(baseDir), host) && Loaded()
                && r == FilterContent(Memo(), host, content)
              else
                r == content && baseUrl == old(baseUrl) && baseDir == old(baseDir)
    {
      r := ReplaceMatches(Tokenize(content), host);
    }

    /** The replacement loop of `preg_replace_callback` over the scanned content. */
    method ReplaceMatches(ts: seq<Token>, host: Host) returns (r: string)
      modifies this
      ensures if AnyUrl(ts) then
                LoadedFrom(old(baseUrl), old(baseDir), host) && Loaded()
                && r == Render(Callback(Memo(), host), ts)
              else
                r == Original(ts) && baseUrl == old(baseUrl) && baseDir == old(baseDir)
    {
      r := [];
      var i := 0;
      ghost var called := false;
      while i < |ts|
        invariant 0 <= i <= |ts|
        invariant called == AnyUrl(ts[..i])
        invariant !called ==> baseUrl == old(baseUrl) && baseDir == old(baseDir) && r == Original(ts[..i])
        invariant called ==> LoadedFrom(old(baseUrl), old(baseDir), host) && Loaded()
        invariant called ==> r == Render(Callback(Memo(), host), ts[..i])
      {
        assert ts[..i + 1] == ts[..i] + [ts[i]];
        match ts[i] {
          case Text(c) =>
            if called {
              ScanStep(Callback(Memo(), host), ts[..i], ts[i], r, called);
            } else {
              AppendOne(ts[..i], ts[i]);
            }
            r := r + [c];
          case Url(open, inner, close) =>
            var url := RewriteUrl(inner, host);
            ScanStep(Callback(Memo(), host), ts[..i], ts[i], r, called);
            r := r + ([open] + url + [close]);
            called := true;
        }
        i := i + 1;
      }
      assert ts[..i] == ts;
    }
  }

  /**
   * One step of the scan in `FilterTheContent`: the output so far is the scanned text
   * until the first match and the rendering from then on.
   */
  lemma ScanStep(f: string -> string, done: seq<Token>, t: Token, r: string, called: bool)
    requires called == AnyUrl(done)
    requires !called ==> r == Original(done)
    requires called ==> r == Render(f, done)
    ensures (called || t.Url?) == AnyUrl(done + [t])
    ensures t.Text? ==> var r' := r + [t.ch];
      (!called ==> r' == Original(done + [t])) && (called ==> r' == Render(f, done + [t]))
    ensures t.Url? ==> r + ([t.open] + f(t.inner) + [t.close]) == Render(f, done + [t])
  {
    AppendOne(done, t);
    RenderAppendOne(f, done, t);
  }

  /**
   * The bases are read on the first call only: a later call uses them even when the
   * host's upload directory has changed in between, and so does a first call whose URL
   * is falsy and left alone.
   */
  method FirstCallFixesBases(host1: Host, url1: string, host2: Host, url2: string) returns (r1: string, r2: string)
    ensures r1 == Rewrite(LoadBases(host1), host1, url1)
    ensures r2 == Rewrite(LoadBases(host1), host2, url2)
  {
    var rewriter := new MediaRewriter();
    r1 := rewriter.RewriteUrl(url1, host1);
    r2 := rewriter.RewriteUrl(url2, host2);
  }
}
