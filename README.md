# wp-dev-helpers, modelled in Dafny

Three small WordPress plugins for local development, modelled with the WordPress and
PHP runtime replaced by explicit inputs:

- **Rewrite Media URLs** (`src/rewrite-media.php`). `rewrite_url` sends a media URL under
  the uploads base to a remote uploads base (`REWRITE_MEDIA_REMOTE`) when the file is
  missing locally. It memoises the uploads base URL and directory in function-static
  variables on its first call. Four filter adapters apply it to WordPress data shapes:
  the image-src tuple, the attribute map, the srcset array, and the quoted
  `http(s)://` URLs in post content.
  - Module `RewriteMedia` holds the pure decision. Its inputs are a `Host` value
    (`set_url_scheme` as `normalize`, `file_exists` as `fileExists`, the result of
    `wp_get_upload_dir()`, and the remote constant) and the memoised `Bases`.
  - Module `ContentScan` holds the regular-expression scan of `filter_the_content`. It is
    a tokenizer with a declarative characterisation (`Scanned`) of the leftmost,
    non-overlapping scan, and two renderings: the one the source performs and a corrected one.
  - Module `MediaHooks` holds class `MediaRewriter`. Its two `Option` fields are the
    static variables. Its methods are `rewrite_url` and the four adapters, proved
    against the pure functions.
- **Local Development Login** (`src/local-dev-login.php`, module `LocalDevLogin`). With the
  empty password, the `authenticate` filter logs in the user named. For the name
  `admin` with no such login, it logs in the administrator with the smallest ID. The
  user database is a sequence of `User` records.
- **Development Error Reporting** (`src/error-reporting.php`, module `ErrorReporting`).
  The level is `E_ALL & ~E_DEPRECATED & ~E_USER_DEPRECATED` (8191 with PHP 8 values)
  unless `DEV_ERROR_REPORTING` is an int. Levels are `bv64`, PHP's integer width.

Points where the code behaves other than one might expect, modelled as the code has them:
- the string `"0"` is falsy and returned unchanged, like the empty string;
- the relative part is cut from the scheme-normalised URL, not from the URL as given;
- a second rewrite is a no-op whenever no remote URL normalises to something under
  the local base, and can move the URL again otherwise (`RewriteIdempotent`, `RewriteNotIdempotentInGeneral`);
- the content filter drops the quotes around every match (see Findings).

## Model

| member | source | states |
|---|---|---|
| `RewriteMedia.GetRemoteUrl` | src/rewrite-media.php:33-39 | an undefined remote constant reads as the empty string; a defined one is returned as is |
| `RewriteMedia.LoadBases` | src/rewrite-media.php:50-54 | the memoised base URL is the scheme-normalised upload base URL; the base directory is taken unnormalised |
| `RewriteMedia.Relative` | src/rewrite-media.php:65 | the relative part is exactly what follows the base in the normalised URL, so base + relative gives the normalised URL back |
| `RewriteMedia.Rewrite` | src/rewrite-media.php:56-69 | the result is the input itself or the remote base followed by the input's relative part; nothing else is possible |
| `RewriteMedia.Active` | src/rewrite-media.php:126-128 | the filters are registered iff the environment is `local` and the remote constant is defined and not falsy (`""` and `"0"` both disable) |
| `RewriteMedia.FalsyUnchanged` | src/rewrite-media.php:56-58 | a falsy URL is returned unchanged |
| `RewriteMedia.ZeroStringIsFalsy` | src/rewrite-media.php:56-58 | `"0"` is returned unchanged; `"00"` and `" "` are not falsy |
| `RewriteMedia.OutsideUploadsUnchanged` | src/rewrite-media.php:60-63 | a URL whose normalised form does not start with the base is returned byte for byte |
| `RewriteMedia.ExistingFileUnchanged` | src/rewrite-media.php:65-68 | when base dir + relative exists, the original URL is returned, not its normalised form |
| `RewriteMedia.MissingFileRedirected` | src/rewrite-media.php:65-69 | a non-falsy URL under the base whose file is missing becomes remote + relative |
| `RewriteMedia.UndefinedRemoteGivesRelative` | src/rewrite-media.php:33-39 | without the remote constant a redirected URL is just its relative part |
| `RewriteMedia.RewriteDecision` | src/rewrite-media.php:56-69 | the definition unfolded into one test: the URL is replaced by remote + relative iff it is not falsy, lies under the base and its file is missing |
| `RewriteMedia.SchemeInsensitive` | src/rewrite-media.php:60-65 | two URLs with the same normalised form are both kept or both redirected to the same URL |
| `RewriteMedia.SiblingDirectoryMatches` | src/rewrite-media.php:61 | the prefix test has no segment boundary: `.../uploads-old/x.png` matches base `.../uploads` |
| `RewriteMedia.MissingUploadScenario` | src/rewrite-media.php:60-69 | a concrete missing upload moves to the remote host with path and query unchanged |
| `RewriteMedia.RewriteIdempotent` | src/rewrite-media.php:60-69 | a second pass changes nothing when no remote URL normalises under the local base |
| `RewriteMedia.RewriteNotIdempotentInGeneral` | src/rewrite-media.php:60-69 | with a remote base under the local base, a second pass moves the URL again |
| `ContentScan.NonQuoteRun` | src/rewrite-media.php:120 | the greedy `[^'"]+` run: quote-free and ends at the first quote or at the end |
| `ContentScan.MatchAt` | src/rewrite-media.php:120 | a match found at a position is a quote, `http(s)://` plus a non-empty quote-free run, then a quote, and is a prefix of the text |
| `ContentScan.MatchAtComplete` | src/rewrite-media.php:120 | every match of the pattern that starts at a position is the one found there, so the match is unique |
| `ContentScan.Tokenize` | src/rewrite-media.php:120 | the scan's pieces spell the content in order: matches and the text between them, nothing lost or reordered |
| `ContentScan.TokenizeScans` | src/rewrite-media.php:120 | the scan is leftmost and non-overlapping: every URL piece is a match of the pattern, and a character is copied only where no match begins |
| `ContentScan.ScannedUnique` | src/rewrite-media.php:120 | no other cut of the content satisfies that characterisation |
| `ContentScan.Callback` | src/rewrite-media.php:120 | the callback keeps each captured URL or moves it to the remote base followed by its relative part |
| `ContentScan.FilterContentAsWritten` | src/rewrite-media.php:118-121 | `filter_the_content` as written: content without a match is returned unchanged; when no matched URL is rewritten the output is two characters shorter per match |
| `ContentScan.AsWrittenDropsQuotes` | src/rewrite-media.php:120 | as written, with every URL kept, the output is two characters shorter per match |
| `ContentScan.AsWrittenChangesKeptContent` | src/rewrite-media.php:118-121 | as written, content holding a match changes even when no URL in it is rewritten |
| `ContentScan.AsWrittenUnquotesExample` | src/rewrite-media.php:120 | as written, `'http://a'` outside the uploads base becomes `http://a` |
| `ContentScan.KeptContentUnchanged` | src/rewrite-media.php:118-121 | corrected: content whose matched URLs are all kept is returned unchanged |
| `ContentScan.NoMatchUnchanged` | src/rewrite-media.php:118-121 | content with no match is returned unchanged |
| `ContentScan.AsWrittenNoMatchUnchanged` | src/rewrite-media.php:118-121 | as written too, content with no match is returned unchanged |
| `ContentScan.QuoteFreeHasNoMatch` | src/rewrite-media.php:120 | content without a quote character has no match |
| `ContentScan.RenderKeepsQuotes` | src/rewrite-media.php:120 | for every callback, the corrected output is two characters longer per match than the output as written |
| `ContentScan.UnquotedExampleCorrected` | src/rewrite-media.php:118-121 | corrected, `'http://a'` comes back with its quotes |
| `MediaHooks.MediaRewriter.constructor` | src/rewrite-media.php:49 | the static base URL and base dir start unset |
| `MediaHooks.MediaRewriter.RewriteUrl` | src/rewrite-media.php:47-70 | fills the static bases from this call's host only if one is unset, keeps them otherwise, and returns the rewrite decision under them |
| `MediaHooks.MediaRewriter.FilterImageSrc` | src/rewrite-media.php:78-86 | `false` or an unset element 0 is returned as is without touching the bases; otherwise only element 0 is rewritten and the other keys are unchanged |
| `MediaHooks.MediaRewriter.FilterImageAttributes` | src/rewrite-media.php:94-102 | an unset `src` leaves the map as is; otherwise only `src` is rewritten and the other keys are unchanged |
| `MediaHooks.MediaRewriter.FilterSrcset` | src/rewrite-media.php:110-116 | keys, order, length, descriptors and values are kept; every `url` is rewritten; an empty array leaves the bases alone |
| `MediaHooks.MediaRewriter.FilterTheContent` | src/rewrite-media.php:118-121 | loads the bases iff the content has a match and returns the corrected filter's output; content without a match comes back unchanged |
| `MediaHooks.MediaRewriter.ReplaceMatches` | src/rewrite-media.php:120 | if the tokens hold a match, the bases satisfy `LoadedFrom` and the result is the corrected rendering under them; otherwise the result is the scanned text itself and the bases are untouched |
| `MediaHooks.FirstCallFixesBases` | src/rewrite-media.php:49-54 | the bases come from the first call's host, even if that URL is falsy, and later calls reuse them when the upload dir has changed |
| `LocalDevLogin.FindByLogin` | src/local-dev-login.php:44 | returns a stored user with that login, or nothing iff no stored user has it |
| `LocalDevLogin.FirstAdministrator` | src/local-dev-login.php:46-51 | returns a stored administrator whose ID is smallest among administrators, or nothing iff there is none |
| `LocalDevLogin.LookUp` | src/local-dev-login.php:44-52 | a user found under another login can only be an administrator found for the name `admin` |
| `LocalDevLogin.Authenticate` | src/local-dev-login.php:38-54 | a non-null incoming user or error is passed on; a non-empty password changes nothing; a user is only produced from the store with the empty password |
| `LocalDevLogin.AuthenticateAsWritten` | src/local-dev-login.php:38-42 | as written, the result is a TypeError exactly when the incoming value is a `WP_Error` (the declared `?\WP_User` return type); otherwise a value is returned, and a user it produces comes from the store with the empty password |
| `LocalDevLogin.AuthenticateFilter` | src/local-dev-login.php:59-63 | outside a `local` environment the filter is not registered and the incoming value stands |
| `LocalDevLogin.LoginMatchWins` | src/local-dev-login.php:44 | with the empty password the user whose login is the name given is returned |
| `LocalDevLogin.RealAdminLoginFirst` | src/local-dev-login.php:44-45 | a real `admin` login wins over the administrator fallback, even if it is not an administrator |
| `LocalDevLogin.AdminFallback` | src/local-dev-login.php:45-51 | with no `admin` login, the result is the administrator with the smallest ID, and null iff there is no administrator |
| `LocalDevLogin.UnknownNameGivesNobody` | src/local-dev-login.php:44-53 | an unknown name other than `admin` gives null |
| `LocalDevLogin.NoBypassOutsideLocal` | src/local-dev-login.php:59-63 | outside `local` the empty password logs nobody in |
| `LocalDevLogin.AsWrittenRejectsError` | src/local-dev-login.php:38-41 | as written an incoming error always ends in a TypeError; corrected it is passed on |
| `LocalDevLogin.AsWrittenAgreesOtherwise` | src/local-dev-login.php:38-54 | for a null or user input the code as written and the corrected function agree |
| `ErrorReporting.GetErrorReporting` | src/error-reporting.php:34-41 | an int override is returned verbatim; otherwise 8191, with both deprecation bits clear and every other `E_ALL` bit set |
| `ErrorReporting.LevelAfterLoad` | src/error-reporting.php:46-53 | the level changes only in a `local` environment |
| `ErrorReporting.AllIsEveryCategory` | src/error-reporting.php:36 | `E_ALL` is the union of the fifteen categories, and no kept category shares a bit with the two deprecation ones |
| `ErrorReporting.DefaultKeepsOtherCategories` | src/error-reporting.php:36 | the default level keeps every category but the two deprecation ones, `E_NOTICE` included |
| `ErrorReporting.DocumentedOverride` | src/error-reporting.php:23 | the override shown in the header is 8183 and clears `E_NOTICE` |

## Findings

| source | as written | input that shows it | evidently intended | confidence | as-written member | corrected member |
|---|---|---|---|---|---|---|
| src/rewrite-media.php:120 | the callback's result replaces the whole match, so both quotes around every matched URL are lost, even for URLs left alone | content `'http://a'` with an uploads base of `https://s.test/uploads` gives `http://a` | replace only the captured URL and keep the quotes (`<img src="…">` stays quoted) | high, not executed | `ContentScan.AsWrittenUnquotesExample` | `ContentScan.KeptContentUnchanged` |
| src/local-dev-login.php:38-41 | an incoming `WP_Error`, which the `@param` line admits, is returned through the declared `?\WP_User` type, which throws a TypeError | `authenticate(new WP_Error(...), 'x', 'y')`, an error from an earlier `authenticate` filter | pass the error on: declare the return type as WP_User, WP_Error or null | medium, not executed | `LocalDevLogin.AsWrittenRejectsError` | `LocalDevLogin.Authenticate` |

`MediaRewriter.FilterTheContent` uses the corrected rendering. `AuthenticateFilter` uses
the corrected `Authenticate`.

## Left out

- WordPress hook plumbing is not modelled: `add_filter`, priorities and callback names. Only the registration conditions are modelled (`Active`, `AuthenticateFilter`, `LevelAfterLoad`).
- `wp_get_environment_type()` is not modelled. The environment type is a string parameter.
- `set_url_scheme`, `file_exists` and `wp_get_upload_dir` are uninterpreted fields of `Host`. Their real behaviour depends on `is_ssl()`, the filesystem and site options.
- The database queries behind `get_user_by` and `get_users` are a sequence of records.
  - `FindByLogin` compares logins exactly. WordPress's trimming and its case-insensitive database collation are not modelled.
  - Roles are one administrator flag per user.
- PHP strings are byte strings; the model uses Dafny strings. No operation here depends on the encoding.
- PCRE details are not modelled: backtracking limits, and `preg_replace_callback` returning null on error.
- PHP type coercion is not modelled, apart from the truthiness of `"0"`.
  - `FilterImageSrc`: requires that a set element 0 is a string, as the `array{string, int, int, bool}|false` annotation says.
  - `FilterImageAttributes`: requires the same of a set `src`, per its `array{src: string}` annotation.
  - PHP would coerce an int or bool there to a string before rewriting; the model does not.
- `MediaRewriter.FilterSrcset` takes every entry to hold a string `url`, as its annotation says. A missing `url` key is not modelled.
- `MediaRewriter.FilterTheContent` returns the corrected rendering. The behaviour as written is `ContentScan.FilterContentAsWritten` (see Findings).
- `MediaRewriter.ReplaceMatches` appends quote, rewritten URL, quote for each match; the source replaces the whole match, quotes included, with the rewritten URL. The stateful loop is modelled for the corrected behaviour only; the as-written output is the function `ContentScan.RenderAsWritten`.
- `MediaRewriter.FilterImageAttributes` takes the attributes as a `map`, so the order of the PHP array, in which WordPress prints the `<img>` attributes, is not modelled. The adapter only replaces the value under `src` and never reorders.
- The `\error_reporting()` call that applies the level is a runtime side effect. `LevelAfterLoad` gives the level it would set.
- Plugin headers are not modelled.
