/**
 * The URL decision of the "Rewrite Media URLs" plugin (src/rewrite-media.php):
 * a URL under the uploads base whose file is missing locally is redirected to the
 * remote uploads base, every other URL is left alone.
 *
 * The WordPress and PHP runtime calls the decision depends on are not modelled;
 * they are the fields of `Host`, supplied with each call:
 *   - `normalize` is `set_url_scheme` (its result depends on the request's scheme),
 *   - `fileExists` is `file_exists` (a filesystem stat at the time of the call),
 *   - `uploadDir` is what `wp_get_upload_dir()` returns,
 *   - `remote` is the constant `REWRITE_MEDIA_REMOTE`, `None` when it is not defined.
 */
module RewriteMedia {
  import opened Wrappers

  datatype UploadDir = UploadDir(baseurl: string, basedir: string)

  datatype Host = Host(
    uploadDir: UploadDir,
    normalize: string -> string,
    fileExists: string -> bool,
    remote: Option<string>)

  /** The memoised uploads base: the scheme-normalised base URL and the base directory. */
  datatype Bases = Bases(baseUrl: string, baseDir: string)

  /** PHP's `!$s` on a string: only the empty string and "0" are falsy. */
  predicate IsFalsy(s: string) {
    s == "" || s == "0"
  }

  predicate StartsWith(s: string, prefix: string) {
    prefix <= s
  }

  /** `get_remote_url`: the remote base, or the empty string when the constant is undefined. */
  function GetRemoteUrl(remote: Option<string>): (r: string)
    ensures remote.None? ==> r == ""
    ensures remote.Some? ==> r == remote.value
  {
    match remote
    case None => ""
    case Some(url) => url
  }

  /** The bases `rewrite_url` memoises on its first call, read from the host at that moment. */
  function LoadBases(host: Host): (b: Bases)
    ensures b.baseUrl == host.normalize(host.uploadDir.baseurl)
    ensures b.baseDir == host.uploadDir.basedir
  {
    Bases(host.normalize(host.uploadDir.baseurl), host.uploadDir.basedir)
  }

  /** Whether the URL is under the uploads base once both are scheme-normalised. */
  predicate UnderUploads(b: Bases, host: Host, url: string) {
    StartsWith(host.normalize(url), b.baseUrl)
  }

  /** The part of the normalised URL after the base, query string and fragment included. */
  function Relative(b: Bases, host: Host, url: string): (rel: string)
    requires UnderUploads(b, host, url)
    ensures b.baseUrl + rel == host.normalize(url)
  {
    host.normalize(url)[|b.baseUrl|..]
  }

  /** `rewrite_url` once the bases are known. */
  function Rewrite(b: Bases, host: Host, url: string): (r: string)
    ensures r == url || (UnderUploads(b, host, url) && r == GetRemoteUrl(host.remote) + Relative(b, host, url))
  {
    if IsFalsy(url) then url
    else if !UnderUploads(b, host, url) then url
    else
      var relative := Relative(b, host, url);
      if host.fileExists(b.baseDir + relative) then url
      else GetRemoteUrl(host.remote) + relative
  }

  /** The activation condition: a local environment and a remote base that is not falsy. */
  function Active(environmentType: string, remote: Option<string>): (r: bool)
    ensures r <==> environmentType == "local" && remote.Some? && !IsFalsy(remote.value)
  {
    !(environmentType != "local" || IsFalsy(GetRemoteUrl(remote)))
  }

  // ---------------------------------------------------------------------------
  // The decision, case by case.

  lemma FalsyUnchanged(b: Bases, host: Host, url: string)
    requires IsFalsy(url)
    ensures Rewrite(b, host, url) == url
  {
  }

  /** Only the string "0" and the empty string are falsy; "00" or " " are not. */
  lemma ZeroStringIsFalsy(b: Bases, host: Host)
    ensures Rewrite(b, host, "0") == "0"
    ensures !IsFalsy("00") && !IsFalsy(" ")
  {
  }

  lemma OutsideUploadsUnchanged(b: Bases, host: Host, url: string)
    requires !UnderUploads(b, host, url)
    ensures Rewrite(b, host, url) == url
  {
  }

  /** A local file wins, and the URL is returned as given, not in its normalised form. */
  lemma ExistingFileUnchanged(b: Bases, host: Host, url: string)
    requires UnderUploads(b, host, url)
    requires host.fileExists(b.baseDir + Relative(b, host, url))
    ensures Rewrite(b, host, url) == url
  {
  }

  lemma MissingFileRedirected(b: Bases, host: Host, url: string)
    requires !IsFalsy(url) && UnderUploads(b, host, url)
    requires !host.fileExists(b.baseDir + Relative(b, host, url))
    ensures Rewrite(b, host, url) == GetRemoteUrl(host.remote) + Relative(b, host, url)
  {
  }

  /** With no remote constant the missing file's URL collapses to the bare relative path. */
  lemma UndefinedRemoteGivesRelative(b: Bases, host: Host, url: string)
    requires host.remote.None?
    requires !IsFalsy(url) && UnderUploads(b, host, url)
    requires !host.fileExists(b.baseDir + Relative(b, host, url))
    ensures b.baseUrl + Rewrite(b, host, url) == host.normalize(url)
  {
  }

  /**
   * The definition of `Rewrite` unfolded into one test, summing up the case lemmas
   * above: a URL is rewritten exactly when it is not falsy, lies under the base and
   * its file is missing (a rewritten URL may coincide with the input).
   */
  lemma RewriteDecision(b: Bases, host: Host, url: string)
    ensures Rewrite(b, host, url) == (
      if !IsFalsy(url) && UnderUploads(b, host, url) && !host.fileExists(b.baseDir + Relative(b, host, url))
      then GetRemoteUrl(host.remote) + Relative(b, host, url)
      else url)
  {
  }

  /**
   * URLs that differ only in what `normalize` erases (the scheme) are treated alike:
   * both are kept or both are redirected to the same remote URL.
   */
  lemma SchemeInsensitive(b: Bases, host: Host, u1: string, u2: string)
    requires !IsFalsy(u1) && !IsFalsy(u2)
    requires host.normalize(u1) == host.normalize(u2)
    ensures (Rewrite(b, host, u1) == u1 && Rewrite(b, host, u2) == u2)
         || Rewrite(b, host, u1) == Rewrite(b, host, u2)
  {
  }

  /** The prefix test has no path-segment boundary: a sibling directory of the base matches. */
  lemma SiblingDirectoryMatches()
    ensures
      var host := Host(UploadDir("http://s/up", "/d"), s => s, p => false, Some("http://c/up"));
      Rewrite(LoadBases(host), host, "http://s/up-old/x") == "http://c/up-old/x"
  {
    var host := Host(UploadDir("http://s/up", "/d"), s => s, p => false, Some("http://c/up"));
    var b := LoadBases(host);
    var url := "http://s/up-old/x";
    assert b.baseUrl == "http://s/up";
    assert url == b.baseUrl + "-old/x";
    assert host.normalize(url) == url;
    assert Relative(b, host, url) == "-old/x";
    assert !IsFalsy(url) by { assert url[1] != '0'; }
    MissingFileRedirected(b, host, url);
  }

  /** A missing upload is moved to the remote host with its path and query unchanged. */
  lemma MissingUploadScenario()
    ensures
      var host := Host(UploadDir("https://s/up", "/d"), s => s, p => false, Some("https://c/up"));
      Rewrite(LoadBases(host), host, "https://s/up/1/a.png?v=2") == "https://c/up/1/a.png?v=2"
  {
    var host := Host(UploadDir("https://s/up", "/d"), s => s, p => false, Some("https://c/up"));
    var b := LoadBases(host);
    var url := "https://s/up/1/a.png?v=2";
    assert b.baseUrl == "https://s/up";
    assert url == b.baseUrl + "/1/a.png?v=2";
    assert host.normalize(url) == url;
    assert Relative(b, host, url) == "/1/a.png?v=2";
    assert !IsFalsy(url) by { assert url[1] != '0'; }
    MissingFileRedirected(b, host, url);
  }

  /**
   * A second pass leaves a redirected URL alone whenever no remote URL normalises
   * to something under the local base.
   */
  lemma RewriteIdempotent(b: Bases, host: Host, url: string)
    requires forall rel: string :: !UnderUploads(b, host, GetRemoteUrl(host.remote) + rel)
    ensures Rewrite(b, host, Rewrite(b, host, url)) == Rewrite(b, host, url)
  {
    var r := Rewrite(b, host, url);
    if r != url {
      assert !UnderUploads(b, host, GetRemoteUrl(host.remote) + Relative(b, host, url));
    }
  }

  /** Without that condition a second pass can move the URL again. */
  lemma RewriteNotIdempotentInGeneral()
    ensures
      var host := Host(UploadDir("http://h/up", "/d"), s => s, p => false, Some("http://h/up/m"));
      var once := Rewrite(LoadBases(host), host, "http://h/up/a");
      once == "http://h/up/m/a" && Rewrite(LoadBases(host), host, once) == "http://h/up/m/m/a"
  {
    var host := Host(UploadDir("http://h/up", "/d"), s => s, p => false, Some("http://h/up/m"));
    var b := LoadBases(host);
    assert "http://h/up/a" == "http://h/up" + "/a";
    assert Relative(b, host, "http://h/up/a") == "/a";
    assert "http://h/up/m/a" == "http://h/up" + "/m/a";
    assert Relative(b, host, "http://h/up/m/a") == "/m/a";
  }
}
