/**
 * The content filter of the "Rewrite Media URLs" plugin (src/rewrite-media.php:118-121):
 * every match of the pattern `['"](https?://[^'"]+)['"]` in the content is replaced by
 * the result of `rewrite_url` applied to the captured URL.
 *
 * The regular-expression scan is modelled as a tokenizer: the content is cut, left to
 * right, into single characters and pattern matches (opening quote, URL, closing quote).
 * `Scanned` states declaratively what a leftmost, non-overlapping scan produces and
 * `ScannedUnique` shows that `Tokenize` is the only token sequence that satisfies it.
 */
module ContentScan {
  import opened Wrappers
  import opened RewriteMedia

  predicate IsQuote(c: char) {
    c == '\'' || c == '"'
  }

  predicate NoQuotes(s: string) {
    forall i :: 0 <= i < |s| ==> !IsQuote(s[i])
  }

  /** A piece of the content: a character copied as is, or a match of the pattern. */
  datatype Token = Text(ch: char) | Url(open: char, inner: string, close: char)

  /** The text of the content that a token covers. */
  function Spelled(t: Token): string {
    match t
    case Text(c) => [c]
    case Url(o, u, c) => [o] + u + [c]
  }

  function Original(ts: seq<Token>): string {
    if ts == [] then [] else Spelled(ts[0]) + Original(ts[1..])
  }

  /** `https?://[^'"]+`, the capture group of the pattern. */
  predicate IsUrlGroup(u: string) {
    && ((StartsWith(u, "https://") && |u| > 8) || (StartsWith(u, "http://") && |u| > 7))
    && NoQuotes(u)
  }

  /** A token that the whole pattern matches, `inner` being its capture group. */
  predicate IsMatch(t: Token) {
    t.Url? && IsQuote(t.open) && IsUrlGroup(t.inner) && IsQuote(t.close)
  }

  /** No match of the pattern begins at the start of `s`. */
  ghost predicate NoMatchAt(s: string) {
    forall t :: IsMatch(t) ==> !StartsWith(s, Spelled(t))
  }

  /** The length of the run of non-quote characters that `s` starts with. */
  function NonQuoteRun(s: string): (n: nat)
    ensures n <= |s|
    ensures NoQuotes(s[..n])
    ensures n < |s| ==> IsQuote(s[n])
  {
    if s == [] || IsQuote(s[0]) then 0
    else
      var n := 1 + NonQuoteRun(s[1..]);
      assert s[..n] == [s[0]] + s[1..][..n - 1];
      n
  }

  /**
   * The pattern tried at the start of `s`. The greedy `[^'"]+` must be followed by a
   * quote, so the group can only be the whole run of non-quote characters.
   */
  function MatchAt(s: string): (m: Option<Token>)
    ensures m.Some? ==> IsMatch(m.value) && StartsWith(s, Spelled(m.value))
  {
    if |s| < 2 || !IsQuote(s[0]) then None
    else
      var body := s[1..];
      var n := NonQuoteRun(body);
      if n < |body| && IsUrlGroup(body[..n]) then
        var t := Url(s[0], body[..n], body[n]);
        assert Spelled(t) == s[..n + 2];
        Some(t)
      else None
  }

  lemma NonQuoteRunAt(s: string, u: string, q: char, rest: string)
    requires s == u + [q] + rest && NoQuotes(u) && IsQuote(q)
    ensures NonQuoteRun(s) == |u|
  {
    assert s[|u|] == q;
    assert forall i :: 0 <= i < |u| ==> s[i] == u[i];
  }

  /** Every match that begins at the start of `s` is the one `MatchAt` finds. */
  lemma MatchAtComplete(s: string, t: Token)
    requires IsMatch(t) && StartsWith(s, Spelled(t))
    ensures MatchAt(s) == Some(t)
  {
    var k := |Spelled(t)|;
    assert s[0] == t.open;
    var body := s[1..];
    assert body == t.inner + [t.close] + s[k..] by {
      assert s == s[..k] + s[k..];
      assert s[..k] == Spelled(t);
    }
    NonQuoteRunAt(body, t.inner, t.close, s[k..]);
    assert body[..|t.inner|] == t.inner;
  }

  lemma NoMatchWhenMatchAtFails(s: string)
    requires MatchAt(s).None?
    ensures NoMatchAt(s)
  {
    forall t | IsMatch(t)
      ensures !StartsWith(s, Spelled(t))
    {
      if StartsWith(s, Spelled(t)) {
        MatchAtComplete(s, t);
      }
    }
  }

  lemma OriginalCons(t: Token, rest: seq<Token>)
    ensures Original([t] + rest) == Spelled(t) + Original(rest)
  {
    assert ([t] + rest)[0] == t;
    assert ([t] + rest)[1..] == rest;
  }

  /** The scan: at each position take the match there, if any, else copy one character. */
  function Tokenize(s: string): (ts: seq<Token>)
    ensures Original(ts) == s
    decreases |s|
  {
    if s == [] then []
    else
      var m := MatchAt(s);
      var t := if m.Some? then m.value else Text(s[0]);
      var k := |Spelled(t)|;
      assert s[..k] == Spelled(t);
      var rest := Tokenize(s[k..]);
      OriginalCons(t, rest);
      assert s == s[..k] + s[k..];
      [t] + rest
  }

  /**
   * What a leftmost, non-overlapping scan of `s` yields: the tokens spell `s` in order,
   * every URL token is a match, and a character is copied only where no match begins.
   */
  ghost predicate Scanned(s: string, ts: seq<Token>)
    decreases ts
  {
    if ts == [] then s == []
    else
      var t := ts[0];
      && StartsWith(s, Spelled(t))
      && (if t.Url? then IsMatch(t) else NoMatchAt(s))
      && Scanned(s[|Spelled(t)|..], ts[1..])
  }

  lemma {:induction false} TokenizeScans(s: string)
    ensures Scanned(s, Tokenize(s))
    decreases |s|
  {
    if s != [] {
      var ts := Tokenize(s);
      match MatchAt(s)
      case Some(t) =>
        TokenizeScans(s[|Spelled(t)|..]);
        assert ts[1..] == Tokenize(s[|Spelled(t)|..]);
      case None =>
        NoMatchWhenMatchAtFails(s);
        TokenizeScans(s[1..]);
        assert ts[1..] == Tokenize(s[1..]);
    }
  }

  lemma {:induction false} ScannedUnique(s: string, ts: seq<Token>)
    requires Scanned(s, ts)
    ensures ts == Tokenize(s)
    decreases ts
  {
    if ts != [] {
      var t := ts[0];
      assert s != [] by { assert |Spelled(t)| > 0; }
      if t.Url? {
        MatchAtComplete(s, t);
      } else {
        assert MatchAt(s).None?;
        assert t == Text(s[0]) by { assert Spelled(t)[0] == s[0]; }
      }
      ScannedUnique(s[|Spelled(t)|..], ts[1..]);
      assert ts == [t] + ts[1..];
    }
  }

  /** A Url token of the sequence exists: the callback runs at least once. */
  predicate AnyUrl(ts: seq<Token>) {
    exists i :: 0 <= i < |ts| && ts[i].Url?
  }

  /** The number of pattern matches among the tokens. */
  function UrlCount(ts: seq<Token>): (n: nat)
    ensures n <= |ts|
    ensures n > 0 <==> AnyUrl(ts)
  {
    if ts == [] then 0
    else
      var n := (if ts[0].Url? then 1 else 0) + UrlCount(ts[1..]);
      assert forall i :: 0 < i < |ts| ==> ts[i] == ts[1..][i - 1];
      n
  }

  /**
   * The callback `fn($match) => rewrite_url($match[1])`, applied to the capture group:
   * each URL is kept or moved to the remote base with its relative part.
   */
  function Callback(b: Bases, host: Host): (callback: string -> string)
    ensures forall u :: callback(u) == u
                        || (UnderUploads(b, host, u) && callback(u) == GetRemoteUrl(host.remote) + Relative(b, host, u))
  {
    u => Rewrite(b, host, u)
  }

  /** Every matched URL is one that the callback leaves alone. */
  predicate AllKept(callback: string -> string, ts: seq<Token>) {
    forall i :: 0 <= i < |ts| && ts[i].Url? ==> callback(ts[i].inner) == ts[i].inner
  }

  // ---------------------------------------------------------------------------
  // The replacement as the source writes it: the callback's result replaces the whole
  // match, so both quote characters are lost.

  function RenderTokenAsWritten(callback: string -> string, t: Token): string {
    match t
    case Text(c) => [c]
    case Url(_, u, _) => callback(u)
  }

  function RenderAsWritten(callback: string -> string, ts: seq<Token>): string {
    if ts == [] then [] else RenderTokenAsWritten(callback, ts[0]) + RenderAsWritten(callback, ts[1..])
  }

  /**
   * `filter_the_content` as written: content without a match comes back as is, and when
   * no matched URL is rewritten the output is two characters shorter per match.
   */
  function FilterContentAsWritten(b: Bases, host: Host, content: string): (r: string)
    ensures !AnyUrl(Tokenize(content)) ==> r == content
    ensures AllKept(Callback(b, host), Tokenize(content)) ==> |r| + 2 * UrlCount(Tokenize(content)) == |content|
  {
    var ts := Tokenize(content);
    if !AnyUrl(ts) then
      AsWrittenPlainUnchanged(Callback(b, host), ts);
      RenderAsWritten(Callback(b, host), ts)
    else if AllKept(Callback(b, host), ts) then
      AsWrittenDropsQuotes(Callback(b, host), ts);
      RenderAsWritten(Callback(b, host), ts)
    else
      RenderAsWritten(Callback(b, host), ts)
  }

  /** Even when no URL is rewritten, every match loses its two quote characters. */
  lemma {:induction false} AsWrittenDropsQuotes(callback: string -> string, ts: seq<Token>)
    requires AllKept(callback, ts)
    ensures |RenderAsWritten(callback, ts)| + 2 * UrlCount(ts) == |Original(ts)|
  {
    if ts != [] {
      AsWrittenDropsQuotes(callback, ts[1..]);
    }
  }

  /** As written, tokens without a match render as the text they spell. */
  lemma {:induction false} AsWrittenPlainUnchanged(callback: string -> string, ts: seq<Token>)
    requires !AnyUrl(ts)
    ensures RenderAsWritten(callback, ts) == Original(ts)
  {
    if ts != [] {
      assert UrlCount(ts[1..]) == 0;
      AsWrittenPlainUnchanged(callback, ts[1..]);
    }
  }

  /** As written too, content with no match comes back unchanged. */
  lemma AsWrittenNoMatchUnchanged(b: Bases, host: Host, content: string)
    requires !AnyUrl(Tokenize(content))
    ensures FilterContentAsWritten(b, host, content) == content
  {
    AsWrittenPlainUnchanged(Callback(b, host), Tokenize(content));
  }

  /** So content holding any match is changed even though no URL in it is rewritten. */
  lemma AsWrittenChangesKeptContent(b: Bases, host: Host, content: string)
    requires AnyUrl(Tokenize(content)) && AllKept(Callback(b, host), Tokenize(content))
    ensures FilterContentAsWritten(b, host, content) != content
  {
    AsWrittenDropsQuotes(Callback(b, host), Tokenize(content));
  }

  /** A text that is one match is scanned as that single match. */
  lemma OneMatch(t: Token)
    requires IsMatch(t)
    ensures Tokenize(Spelled(t)) == [t]
  {
    var s := Spelled(t);
    MatchAtComplete(s, t);
    assert s[|s|..] == [];
  }

  /** The quoted URL of the two examples below, and a host whose uploads base it is not under. */
  lemma ExampleSetting(host: Host)
    requires host == Host(UploadDir("https://s.test/uploads", "/srv/uploads"), s => s, p => false, None)
    ensures IsMatch(Url('\'', "http://a", '\''))
    ensures Spelled(Url('\'', "http://a", '\'')) == "'http://a'"
    ensures Rewrite(LoadBases(host), host, "http://a") == "http://a"
  {
    assert StartsWith("http://a", "http://");
    assert host.normalize("http://a") == "http://a";
    assert !StartsWith("http://a", "https://s.test/uploads") by {
      assert "http://a"[4] != "https://s.test/uploads"[4];
    }
  }

  /** A concrete input: a quoted URL outside the uploads base comes back unquoted. */
  lemma AsWrittenUnquotesExample()
    ensures
      var host := Host(UploadDir("https://s.test/uploads", "/srv/uploads"), s => s, p => false, None);
      FilterContentAsWritten(LoadBases(host), host, "'http://a'") == "http://a"
  {
    var host := Host(UploadDir("https://s.test/uploads", "/srv/uploads"), s => s, p => false, None);
    var t := Url('\'', "http://a", '\'');
    ExampleSetting(host);
    OneMatch(t);
    assert RenderAsWritten(Callback(LoadBases(host), host), [t]) == Rewrite(LoadBases(host), host, "http://a") by {
      assert [t][1..] == [];
    }
  }

  // ---------------------------------------------------------------------------
  // The replacement as evidently intended: only the capture group is replaced, the
  // quotes around it stay.

  function RenderToken(callback: string -> string, t: Token): string {
    match t
    case Text(c) => [c]
    case Url(o, u, c) => [o] + callback(u) + [c]
  }

  function Render(callback: string -> string, ts: seq<Token>): string {
    if ts == [] then [] else RenderToken(callback, ts[0]) + Render(callback, ts[1..])
  }

  /** `filter_the_content` with the bases known. */
  function FilterContent(b: Bases, host: Host, content: string): string {
    Render(Callback(b, host), Tokenize(content))
  }

  /** Content whose every matched URL is kept comes back unchanged, quotes included. */
  lemma KeptContentUnchanged(b: Bases, host: Host, content: string)
    requires AllKept(Callback(b, host), Tokenize(content))
    ensures FilterContent(b, host, content) == content
  {
    RenderKept(Callback(b, host), Tokenize(content));
  }

  /** Where every matched URL is kept, rendering gives back exactly the scanned text. */
  lemma {:induction false} RenderKept(callback: string -> string, ts: seq<Token>)
    requires AllKept(callback, ts)
    ensures Render(callback, ts) == Original(ts)
  {
    if ts != [] {
      assert AllKept(callback, ts[1..]) by {
        forall i | 0 <= i < |ts| - 1 && ts[1..][i].Url?
          ensures callback(ts[1..][i].inner) == ts[1..][i].inner
        {
          assert ts[1..][i] == ts[i + 1];
        }
      }
      RenderKept(callback, ts[1..]);
      assert ts[0].Url? ==> callback(ts[0].inner) == ts[0].inner;
    }
  }

  /** Content without a match is returned unchanged, whatever the bases and host. */
  lemma NoMatchUnchanged(b: Bases, host: Host, content: string)
    requires !AnyUrl(Tokenize(content))
    ensures FilterContent(b, host, content) == content
  {
    KeptContentUnchanged(b, host, content);
  }

  /** In particular content without a quote character has no match. */
  lemma {:induction false} QuoteFreeHasNoMatch(content: string)
    requires NoQuotes(content)
    ensures !AnyUrl(Tokenize(content))
    decreases |content|
  {
    if content != [] {
      assert MatchAt(content).None?;
      assert NoQuotes(content[1..]) by {
        forall i | 0 <= i < |content| - 1 ensures !IsQuote(content[1..][i]) {
          assert content[1..][i] == content[i + 1];
        }
      }
      QuoteFreeHasNoMatch(content[1..]);
      var ts := Tokenize(content);
      assert ts[1..] == Tokenize(content[1..]);
      forall i | 0 <= i < |ts| ensures !ts[i].Url? {
        if i > 0 { assert ts[i] == ts[1..][i - 1]; }
      }
    }
  }

  /** Rendering distributes over concatenation. */
  lemma {:induction false} RenderAppend(callback: string -> string, ts1: seq<Token>, ts2: seq<Token>)
    ensures Render(callback, ts1 + ts2) == Render(callback, ts1) + Render(callback, ts2)
  {
    if ts1 == [] {
      assert ts1 + ts2 == ts2;
    } else {
      var ts := ts1 + ts2;
      assert ts[0] == ts1[0];
      assert ts[1..] == ts1[1..] + ts2;
      RenderAppend(callback, ts1[1..], ts2);
      calc {
        Render(callback, ts);
        RenderToken(callback, ts1[0]) + Render(callback, ts1[1..] + ts2);
        RenderToken(callback, ts1[0]) + (Render(callback, ts1[1..]) + Render(callback, ts2));
      }
    }
  }

  /** So does the scanned text. */
  lemma {:induction false} OriginalAppend(ts1: seq<Token>, ts2: seq<Token>)
    ensures Original(ts1 + ts2) == Original(ts1) + Original(ts2)
  {
    if ts1 == [] {
      assert ts1 + ts2 == ts2;
    } else {
      var head, rest := Spelled(ts1[0]), ts1[1..];
      assert Original(ts1 + ts2) == head + Original(rest + ts2) by {
        assert (ts1 + ts2)[0] == ts1[0];
        assert (ts1 + ts2)[1..] == rest + ts2;
      }
      OriginalAppend(rest, ts2);
    }
  }

  /** Scanning one more token extends the scanned text and the match count. */
  lemma AppendOne(ts: seq<Token>, t: Token)
    ensures Original(ts + [t]) == Original(ts) + Spelled(t)
    ensures AnyUrl(ts + [t]) <==> AnyUrl(ts) || t.Url?
  {
    OriginalAppend(ts, [t]);
    assert [t][1..] == [];
    assert (ts + [t])[|ts|] == t;
    if AnyUrl(ts) {
      var i :| 0 <= i < |ts| && ts[i].Url?;
      assert (ts + [t])[i] == ts[i];
    }
  }

  /**
   * Rendering one more token appends that token's rendering; up to the first match the
   * rendering is the scanned text itself.
   */
  lemma RenderAppendOne(callback: string -> string, ts: seq<Token>, t: Token)
    ensures Render(callback, ts + [t]) == Render(callback, ts) + RenderToken(callback, t)
    ensures !AnyUrl(ts) ==> Render(callback, ts) == Original(ts)
  {
    RenderAppend(callback, ts, [t]);
    assert [t][1..] == [];
    if !AnyUrl(ts) {
      RenderKept(callback, ts);
    }
  }

  /**
   * For any callback, the corrected output is two characters longer per match than the
   * output as written: the two quote characters of each match.
   */
  lemma {:induction false} RenderKeepsQuotes(callback: string -> string, ts: seq<Token>)
    ensures |Render(callback, ts)| == |RenderAsWritten(callback, ts)| + 2 * UrlCount(ts)
  {
    if ts != [] {
      RenderKeepsQuotes(callback, ts[1..]);
    }
  }

  /** The example above, corrected: the quoted URL stays quoted. */
  lemma UnquotedExampleCorrected()
    ensures
      var host := Host(UploadDir("https://s.test/uploads", "/srv/uploads"), s => s, p => false, None);
      FilterContent(LoadBases(host), host, "'http://a'") == "'http://a'"
  {
    var host := Host(UploadDir("https://s.test/uploads", "/srv/uploads"), s => s, p => false, None);
    var t := Url('\'', "http://a", '\'');
    ExampleSetting(host);
    OneMatch(t);
    assert Render(Callback(LoadBases(host), host), [t]) == Spelled(t) by {
      assert [t][1..] == [];
    }
  }
}
