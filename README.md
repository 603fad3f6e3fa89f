# URL-shortening forwarding bot: a Dafny model

The bot takes messages forwarded to it on Telegram. It finds the words that start
with `http` and shortens each one through the user's API key at a link-shortening
service. It replaces every occurrence of each long URL with its short form, then
formats the reply from the user's stored preferences. Those preferences are a footer,
a channel, a text switch and a picture switch. Users set them with commands: each
command sets or removes one field of the user's MongoDB document.

The model has four modules:

- `Options` (`options.dfy`): the `Option` type. It stands for a missing document, a
  missing JSON field or a missing command argument.
- `PyText` (`pytext.dfy`): the Python string operations the bot uses, written out on
  `seq<char>`. These are `str.isspace`, argument-less `str.split()`, `str.startswith`,
  `str.replace` and `' '.join`. It also holds lemmas about them, such as: splitting
  words joined by single spaces gives the words back.
- `Preferences` (`preferences.dfy`): the document collection. It is a class `Store`
  with a field `users: map<UserId, map<Field, Value>>`, and each command handler is a
  method on it. Every method states its new state as `SetField` (MongoDB `$set` with
  upsert) or `UnsetField` (`$unset` without upsert) of the old one. Lemmas prove
  idempotence, last-write-wins and the frame conditions. They also prove a
  well-formedness invariant: string fields hold non-empty strings and the switches hold
  booleans.
- `Forwarding` (`forwarding.dfy`): the handler for forwarded messages. `Transform` is
  the handler as a function of its inputs. The method `HandleForwardedMessage` runs the
  handler step by step and is proved equal to it. That method is built from
  `ReplaceEach`, the loop that reassigns `new_message`, and `ApplySettings`, the `+=`
  of the footer and channel lines and the overwrite when text is disabled. Lemmas
  prove the properties listed in the table below.

The inputs of the handler are:

- the document collection and the sender's id; the handler reads the sender's document
  with `find_one`, and `Transform` takes that document (`Option<Record>`);
- the message text, which may be absent;
- whether the message carries a photo;
- the shortening service, as a function from (API key, long URL) to the
  `shortenedUrl` field of its answer, if it has one.

The output is an `Outcome` (`NeedApiKey`, `NoUrls`, `MediaDisabled` or `Reply(text)`)
and the text the bot sends for it.

The model follows the code of `main.py`, including where it departs from a tidier
design:

- URLs are the whitespace-separated words that start with `http`. They are not entity
  spans supplied by the platform.
- The text is rebuilt by a replace-all of each long URL over the whole text, in list
  order. No replacement is done per position.
- When the service answers without `shortenedUrl`, the long URL is kept. There is no
  failure outcome.
- The channel is appended as a line `"\nChannel: " + channel`. No link prefix in the
  text is rewritten.
- With text disabled, the reply is overwritten by the space-joined short links after
  the footer and channel lines were appended. Both lines are lost, and no footer is
  appended afterwards.
- Pictures being disabled replaces the whole reply with a fixed message. It is not a
  flag handed on with the text.

## Model

| member | source | states |
|---|---|---|
| `PyText.Words` | main.py:117 | every word that `text.split()` yields is non-empty and free of whitespace |
| `PyText.WordsOfJoin` | main.py:134 | splitting words joined by single spaces gives back exactly those words, in order |
| `PyText.ReplaceBySelf` | main.py:125 | `s.replace(p, p) == s` for every pattern, including the empty one |
| `PyText.ReplaceAbsent` | main.py:125 | a non-empty pattern that does not occur leaves the text unchanged |
| `PyText.ReplaceAll` | main.py:125 | `str.replace` with a non-empty pattern never lengthens the text when the replacement is no longer than the pattern, and keeps its length when both are equally long |
| `PyText.Join` | main.py:134 | `' '.join(ws)` of at least one word starts with the first word and ends with the last |
| `Forwarding.UrlWords` | main.py:117 | a word is kept exactly when it is one of the input words and starts with `http`; never more words than the input |
| `Forwarding.UrlWordsAppend` | main.py:117 | the filter runs part by part and keeps the order of the words |
| `Forwarding.ShortenUrl` | main.py:12-15 | `.get("shortenedUrl", long_url)`: the service's `shortenedUrl` whenever the answer has one, and the long URL itself when it has none |
| `Forwarding.Urls` | main.py:116-117 | every extracted URL is one of the words of the text and starts with `http`, and every such word is extracted |
| `Forwarding.ShortenAll` | main.py:121 | one result per URL, duplicates included; result i is the service's short link for URL i, or URL i itself when the answer has no `shortenedUrl` (line 15) |
| `Forwarding.ShortenAllFallback` | main.py:15 | a service that answers each URL without `shortenedUrl` or with the URL itself leaves the URL list unchanged |
| `Forwarding.Zip` | main.py:124 | `zip` pairs element i with element i, up to the shorter list |
| `Forwarding.Recompose` | main.py:124-125 | when every URL is replaced by a link no longer than itself, the rewritten text is no longer than the original |
| `Forwarding.ReplaceEach` | main.py:122-125 | the loop leaves `new_message` equal to the left fold of replace-all over the pairs, in order |
| `Forwarding.RecomposeBySelf` | main.py:124-125 | replacing every URL by itself leaves the text unchanged |
| `Forwarding.ApplySettings` | main.py:128-134 | with text shown: the text, then the footer line, then the channel line; with text disabled: exactly the space-joined short links, without footer or channel |
| `Forwarding.MessageText` | main.py:116 | `text or ""`: the message text when there is one; a message without text has no words, so no URLs |
| `Forwarding.FooterLine` | main.py:128-129 | a footer line is appended exactly when the stored footer is truthy; it starts on a new line and ends with the footer |
| `Forwarding.ChannelLine` | main.py:130-131 | a channel line is appended exactly when the stored channel is truthy; it starts with a new line and `Channel: ` and ends with the channel |
| `Forwarding.TextShown` | main.py:133 | text is shown when `text_enabled` was never stored, and otherwise exactly when the stored switch is true |
| `Forwarding.PicturesShown` | main.py:137 | pictures are shown when `picture_enabled` was never stored, and otherwise exactly when the stored switch is true |
| `Forwarding.Transform` | main.py:110-144 | "set your API key" exactly when there is no document or no `api_key`; with a key, "no URLs" exactly when no word starts with `http`; the pictures-disabled reply exactly when there are URLs, a photo and `picture_enabled` is false; otherwise the composed or collapsed text |
| `Forwarding.HandleForwardedMessage` | main.py:110-144 | the step-by-step handler reads the sender's document with `find_one` (line 112), runs the loop, the `+=`, the overwrite and the media check, and replies exactly what `Transform` describes; the reply string is the fixed text of that outcome (lines 138, 142, 144) or the composed message |
| `Forwarding.ShortenerNotConsulted` | main.py:114-119 | without an API key or without URLs, no answer of the service can change the reply |
| `Forwarding.IdentityShortener` | main.py:121-134 | when the service supplies no short link or gives each URL back unchanged, the reply is the original text plus the footer and channel lines, or the URLs themselves when text is disabled |
| `Forwarding.CollapsedReplyIsShortLinks` | main.py:133-134 | with text disabled and single-word short links, splitting the reply gives exactly the short links, one per URL, in order |
| `Forwarding.SettingsOfWellFormed` | main.py:128-137 | for a document written by the commands, the footer and channel lines appear exactly when the field is stored, and text or pictures are hidden exactly when their switch is stored as false |
| `Forwarding.EligibleOnlyThroughApiKey` | main.py:114 | a write makes a document pass the API-key test exactly when it writes `api_key` or the document already passed; removing any other field keeps the test's result |
| `Forwarding.AddApiMakesEligible` | main.py:28 | after `/add_api` the user's messages are no longer refused for a missing key |
| `Forwarding.RemovedLinesNotAppended` | main.py:45-65 | after `/remove_footer` or `/remove_channel` the corresponding line is never appended |
| `Forwarding.TextSwitch` | main.py:70-75 | after `/disable_text` the reply collapses to the links; after `/enable_text` it does not |
| `Forwarding.PrefixedTextWords` | main.py:117 | the words, and so the URLs, of the message `"http http1"` are `"http"` and `"http1"` |
| `Forwarding.ReplaceAllCorruptsExtendedUrl` | main.py:124-125 | on `"http http1"` with `http -> a`, `http1 -> b`, the replace-all loop yields `"a a1"` |
| `Forwarding.HandlerCorruptsExtendedUrl` | main.py:110-140 | the handler replies `"a a1"` to `"http http1"` when the service answers `a` and `b` |
| `Forwarding.Substitute` | main.py:124-125 | corrected rewrite, word-level reference: replacing the URL words one by one keeps the number of words |
| `Forwarding.RewriteUrls` | main.py:124-125 | corrected rewrite: an input that is empty or starts with whitespace gives a result that is empty or starts with whitespace |
| `Forwarding.RewriteUrlsWithoutLinks` | main.py:124-125 | corrected rewrite: with no short links to hand out, the text comes back unchanged |
| `Forwarding.RewriteUrlsKeepsSpaces` | main.py:124-125 | corrected rewrite: the whitespace characters of the text reappear in the result, all of them and in order; together with `RewriteUrlsWords` only the URL words change |
| `Forwarding.RewriteUrlsWords` | main.py:124-125 | corrected rewrite: rewriting each URL where it stands replaces the k-th URL word, and only it, by the k-th short link |
| `Forwarding.RewriteUrlsKeepsExtendedUrl` | main.py:124-125 | corrected rewrite: `"http http1"` becomes its two short links joined by the original space |
| `Preferences.SetField` | main.py:28 | `$set` with upsert: the user's document exists afterwards, holds the new value in that field and its other fields unchanged; other users are untouched |
| `Preferences.UnsetField` | main.py:47 | `$unset` without upsert: no document is created; the user's document loses exactly that field; other users are untouched |
| `Preferences.LookupAfterSet` | main.py:133 | after a write, `get` of that field returns the value written, whatever the default |
| `Preferences.LookupOtherField` | main.py:133 | a write leaves `get` of every other field of the document as it was |
| `Preferences.LookupAfterUnset` | main.py:137 | after a removal, `get` of that field returns the default |
| `Preferences.SetIdempotent` | main.py:28 | setting a field twice to the same value equals setting it once |
| `Preferences.SetOverwrites` | main.py:56 | of two writes to the same field, the last wins |
| `Preferences.UnsetIdempotent` | main.py:64 | removing a field twice equals removing it once |
| `Preferences.UnsetAbsentUser` | main.py:47 | removing a field of a user without a document changes nothing and creates nothing |
| `Preferences.SetKeepsWellFormed` | main.py:28 | writing a well-typed value keeps every document well formed |
| `Preferences.UnsetKeepsWellFormed` | main.py:64 | removing a field keeps every document well formed |
| `Preferences.FirstArg` | main.py:25 | an argument the handler accepts is the first one; for arguments as the dispatcher splits them (non-empty words) it is accepted exactly when there is at least one |
| `Preferences.AllArgs` | main.py:53 | an accepted footer is the arguments joined by single spaces; for dispatcher-split arguments it is accepted exactly when there is at least one |
| `Preferences.FooterKeepsArgs` | main.py:53 | the footer made of the command's words is non-empty, and splitting it gives the words back |
| `Preferences.Store.Upsert` | main.py:28 | the collection becomes `SetField` of the old one, and `find_one` then returns a document holding the value written |
| `Preferences.Store.Unset` | main.py:47 | the collection becomes `UnsetField` of the old one: `find_one` finds a document exactly when it did before, and that document lacks the field |
| `Preferences.Store.AddApi` | main.py:23-31 | with a non-empty first argument, upserts `api_key` only, so `find_one` then returns a document holding that key; otherwise the store is unchanged; the reply text of each branch |
| `Preferences.Store.AddChannel` | main.py:34-42 | with a non-empty first argument, upserts `channel` only; otherwise the store is unchanged; the reply text of each branch |
| `Preferences.Store.RemoveChannel` | main.py:45-48 | unsets `channel` without creating a document; `find_one` then returns no channel |
| `Preferences.Store.AddFooter` | main.py:51-59 | with a non-empty space-joined argument list, upserts `footer` only; otherwise the store is unchanged |
| `Preferences.Store.RemoveFooter` | main.py:62-65 | unsets `footer` without creating a document; `find_one` then returns no footer |
| `Preferences.Store.DisableText` | main.py:68-71 | upserts `text_enabled = False` only |
| `Preferences.Store.EnableText` | main.py:73-76 | upserts `text_enabled = True` only |
| `Preferences.Store.EnablePicture` | main.py:79-82 | upserts `picture_enabled = True` only |
| `Preferences.Store.DisablePicture` | main.py:84-87 | upserts `picture_enabled = False` only |
| `Preferences.Store.ChangeLanguage` | main.py:90-98 | with a non-empty first argument, upserts `language` only; otherwise the store is unchanged |

Every command method also ensures that a well-formed store stays well formed.

## Left out

- Telegram plumbing is not modelled: the `Update` and `CallbackContext` objects,
  `reply_text`, the dispatcher, polling, and the fixed-text commands `/start`, `/help`
  and `/getmyid` (main.py:18-20, 101-107, 147-174). Replies are values: a reply string
  from each command method and an `Outcome` from the forwarded-message handler.
- The MongoDB client and driver (main.py:7-9) are replaced by an in-memory map. The
  `_id` key is the map key. Storage errors are not modelled.
- The HTTP request in `shorten_url` (main.py:13-14) is not modelled, and neither is the
  way it builds the request URL without encoding. The service is a deterministic
  function from (API key, long URL) to an optional `shortenedUrl`. So two requests for
  the same URL get the same answer. Network errors and answers that are not JSON are
  also not modelled; in the bot they raise an exception and the handler sends no reply.
  A `shortenedUrl` field holding something other than a string is not modelled either.
- `PyText.IsSpace` is a fixed list: the ASCII whitespace, the four information
  separators, next line, no-break space, and the Unicode space, line and paragraph
  separators. It is meant to match Python's `str.isspace`, but no Unicode database
  lookup is modelled.
- Stored values are strings or booleans, the only kinds the commands write. Python
  truthiness and f-string rendering (`True`/`False`) are modelled for these two kinds
  only.
- `update.message.photo` is modelled as a flag. On Telegram a photo message usually
  carries its words in `caption` rather than `text`; that platform behaviour is not
  part of this model. Videos set no `photo`, so the handler never withholds them, even
  though its reply mentions videos.
- The `language` field is stored by `ChangeLanguage`, but nothing reads it.
- `HandleForwardedMessage` keeps the code's replace-all. The corrected in-place
  rewrite, `RewriteUrls`, stands beside it and is not wired into the handler, because
  the handler models what the bot does.

## Findings

| source | as written | input that shows it | evidently intended | confidence | as-written member | corrected member |
|---|---|---|---|---|---|---|
| main.py:124-125 | each long URL is replaced everywhere in the whole text, one URL after another, with plain `str.replace` | `"http http1"`, shortened as `http -> a` and `http1 -> b`. The handler replies `"a a1"`: the first replace also rewrote the start of the second URL, and the second URL was then never found. The same happens to `http://x.com http://x.com/page` | each URL replaced at its own position by its own short link: `"a b"` | medium; not executed | `Forwarding.HandlerCorruptsExtendedUrl` | `Forwarding.RewriteUrlsWords` |
