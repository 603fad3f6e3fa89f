/**
 * The handler for forwarded messages: find the words that start with "http", shorten
 * each through the user's API key, replace every occurrence of each long URL by its
 * short form, append the footer and the channel, collapse to the links alone when
 * text is disabled, and withhold the reply when the message has a photo and pictures
 * are disabled.
 */
module Forwarding {
  import opened Options
  import opened PyText
  import opened Preferences

  /**
   * The shortening service: for an API key and a long URL, the `shortenedUrl` field
   * of its JSON answer, or None when the answer has no such field.
   */
  type Shortener = (string, string) -> Option<string>

  /** What the handler replies. */
  datatype Outcome =
    | NeedApiKey        // no document, or no `api_key` field
    | NoUrls            // no word of the text starts with "http"
    | MediaDisabled     // a photo arrived while pictures are disabled
    | Reply(text: string)

  /** The text sent back for each outcome. */
  function ReplyText(o: Outcome): string {
    match o
    case NeedApiKey => "You need to set your API key using /add_api."
    case NoUrls => "No URLs found to shorten."
    case MediaDisabled => "Pictures and videos are disabled for forwarded posts."
    case Reply(t) => t
  }

  /** `shorten_url`: the service's short link, or the long URL itself when the answer has none. */
  function ShortenUrl(shorten: Shortener, apiKey: string, longUrl: string): (r: string)
    ensures shorten(apiKey, longUrl).Some? ==> r == shorten(apiKey, longUrl).value
    ensures shorten(apiKey, longUrl).None? ==> r == longUrl
  {
    shorten(apiKey, longUrl).GetOr(longUrl)
  }

  predicate IsUrl(w: string) {
    StartsWith(w, "http")
  }

  /** The words that start with "http", in their order. */
  function UrlWords(ws: seq<string>): (us: seq<string>)
    ensures |us| <= |ws|
    ensures forall u :: u in us <==> u in ws && IsUrl(u)
  {
    if ws == [] then []
    else if IsUrl(ws[0]) then [ws[0]] + UrlWords(ws[1..])
    else UrlWords(ws[1..])
  }

  /** Filtering a concatenation filters each part and keeps them in order. */
  lemma {:induction false} UrlWordsAppend(ws: seq<string>, vs: seq<string>)
    ensures UrlWords(ws + vs) == UrlWords(ws) + UrlWords(vs)
  {
    if ws != [] {
      assert (ws + vs)[0] == ws[0] && (ws + vs)[1..] == ws[1..] + vs;
      UrlWordsAppend(ws[1..], vs);
    } else {
      assert ws + vs == vs;
    }
  }

  /** `[word for word in text.split() if word.startswith("http")]`. */
  function Urls(text: string): (us: seq<string>)
    ensures forall i :: 0 <= i < |us| ==> IsWord(us[i]) && IsUrl(us[i])
    ensures forall i :: 0 <= i < |us| ==> us[i] in Words(text)
    ensures forall w :: w in Words(text) && IsUrl(w) ==> w in us
  {
    var us := UrlWords(Words(text));
    assert forall i :: 0 <= i < |us| ==> us[i] in us;
    us
  }

  /** `[shorten_url(api_key, url) for url in urls]`: one request per URL, duplicates included. */
  function ShortenAll(shorten: Shortener, apiKey: string, urls: seq<string>): (r: seq<string>)
    ensures |r| == |urls|
    ensures forall i :: 0 <= i < |urls| ==> r[i] == ShortenUrl(shorten, apiKey, urls[i])
  {
    if urls == [] then []
    else [ShortenUrl(shorten, apiKey, urls[0])] + ShortenAll(shorten, apiKey, urls[1..])
  }

  /** Python's `zip`: pairs up to the shorter of the two lists. */
  function Zip(xs: seq<string>, ys: seq<string>): (ps: seq<(string, string)>)
    ensures |ps| == if |xs| <= |ys| then |xs| else |ys|
    ensures forall i :: 0 <= i < |ps| ==> ps[i] == (xs[i], ys[i])
  {
    if xs == [] || ys == [] then [] else [(xs[0], ys[0])] + Zip(xs[1..], ys[1..])
  }

  /**
   * The loop `for (long, short) in pairs: text = text.replace(long, short)`: the left
   * fold of replace-all over the pairs, in order (written by peeling off the last pair).
   */
  function Recompose(text: string, pairs: seq<(string, string)>): (r: string)
    ensures (forall i :: 0 <= i < |pairs| ==> pairs[i].0 != [] && |pairs[i].1| <= |pairs[i].0|) ==> |r| <= |text|
  {
    if pairs == [] then text
    else
      var last := pairs[|pairs| - 1];
      ReplaceAll(Recompose(text, pairs[..|pairs| - 1]), last.0, last.1)
  }

  /** `update.message.text or ""`. */
  function MessageText(text: Option<string>): (t: string)
    ensures text.Some? ==> t == text.value
    ensures text.None? ==> Words(t) == []
  {
    text.GetOr("")
  }

  /** `if user_data and "api_key" in user_data`. */
  predicate Eligible(user: Option<Record>) {
    user.Some? && ApiKey in user.value
  }

  /** `f"\n{footer}"` when the footer is truthy, else nothing. */
  function FooterLine(record: Record): (line: string)
    ensures line != [] <==> Footer in record && Truthy(record[Footer])
    ensures line != [] ==> StartsWith(line, "\n") && EndsWith(line, Render(record[Footer]))
  {
    if Footer in record && Truthy(record[Footer]) then "\n" + Render(record[Footer]) else ""
  }

  /** `f"\nChannel: {channel}"` when the channel is truthy, else nothing. */
  function ChannelLine(record: Record): (line: string)
    ensures line != [] <==> Channel in record && Truthy(record[Channel])
    ensures line != [] ==> StartsWith(line, "\nChannel: ") && EndsWith(line, Render(record[Channel]))
  {
    if Channel in record && Truthy(record[Channel]) then "\nChannel: " + Render(record[Channel]) else ""
  }

  /** `user_data.get("text_enabled", True)`, as a truth value. */
  predicate TextShown(record: Record)
    ensures TextEnabled !in record ==> TextShown(record)
    ensures TextEnabled in record && record[TextEnabled].Bool? ==> (TextShown(record) <==> record[TextEnabled].b)
  {
    Truthy(Lookup(record, TextEnabled, Bool(true)))
  }

  /** `user_data.get("picture_enabled", True)`, as a truth value. */
  predicate PicturesShown(record: Record)
    ensures PictureEnabled !in record ==> PicturesShown(record)
    ensures PictureEnabled in record && record[PictureEnabled].Bool? ==> (PicturesShown(record) <==> record[PictureEnabled].b)
  {
    Truthy(Lookup(record, PictureEnabled, Bool(true)))
  }

  /** The short links for the message, in the order their URLs appear. */
  function Shortened(record: Record, text: string, shorten: Shortener): seq<string>
    requires ApiKey in record
  {
    ShortenAll(shorten, Render(record[ApiKey]), Urls(text))
  }

  /** The text with every long URL replaced, then the footer line, then the channel line. */
  function Composed(record: Record, text: string, shorten: Shortener): string
    requires ApiKey in record
  {
    var urls := Urls(text);
    Recompose(text, Zip(urls, Shortened(record, text, shorten))) + FooterLine(record) + ChannelLine(record)
  }

  /**
   * What `handle_forwarded_message` replies to a forwarded message, given the sender's
   * document (`find_one`), the message text, whether it carries a photo, and the service.
   */
  function Transform(user: Option<Record>, text: Option<string>, hasPhoto: bool, shorten: Shortener): (o: Outcome)
    ensures o == NeedApiKey <==> !Eligible(user)
    ensures Eligible(user) ==> (o == NoUrls <==> Urls(MessageText(text)) == [])
    ensures o == MediaDisabled <==>
              Eligible(user) && Urls(MessageText(text)) != [] && hasPhoto && !PicturesShown(user.value)
    ensures o.Reply? && TextShown(user.value) ==>
              o.text == Composed(user.value, MessageText(text), shorten)
    ensures o.Reply? && !TextShown(user.value) ==>
              o.text == Join(Shortened(user.value, MessageText(text), shorten), " ")
  {
    if !Eligible(user) then NeedApiKey
    else
      var record, t := user.value, MessageText(text);
      if Urls(t) == [] then NoUrls
      else if hasPhoto && !PicturesShown(record) then MediaDisabled
      else if TextShown(record) then Reply(Composed(record, t, shorten))
      else Reply(Join(Shortened(record, t, shorten), " "))
  }

  /** The replacement loop of the handler: each long URL, in order, replaced everywhere by its short form. */
  method ReplaceEach(text: string, pairs: seq<(string, string)>) returns (newMessage: string)
    ensures newMessage == Recompose(text, pairs)
  {
    newMessage := text;
    var i := 0;
    while i < |pairs|
      invariant 0 <= i <= |pairs|
      invariant newMessage == Recompose(text, pairs[..i])
    {
      assert pairs[..i + 1][..i] == pairs[..i];
      newMessage := ReplaceAll(newMessage, pairs[i].0, pairs[i].1);
      i := i + 1;
    }
    assert pairs[..i] == pairs;
  }

  /**
   * The settings applied to the rewritten text: `+=` of the footer line and of the
   * channel line, then, when text is disabled, the overwrite with the short links alone.
   */
  method ApplySettings(userData: Record, rewritten: string, shortenedUrls: seq<string>) returns (newMessage: string)
    ensures TextShown(userData) ==> newMessage == rewritten + FooterLine(userData) + ChannelLine(userData)
    ensures !TextShown(userData) ==> newMessage == Join(shortenedUrls, " ")
  {
    newMessage := rewritten;
    if Footer in userData && Truthy(userData[Footer]) {
      newMessage := newMessage + ("\n" + Render(userData[Footer]));
    }
    assert newMessage == rewritten + FooterLine(userData);
    ghost var withFooter := newMessage;
    if Channel in userData && Truthy(userData[Channel]) {
      newMessage := newMessage + ("\nChannel: " + Render(userData[Channel]));
    }
    assert newMessage == withFooter + ChannelLine(userData);
    if !Truthy(Lookup(userData, TextEnabled, Bool(true))) {
      newMessage := Join(shortenedUrls, " ");
    }
  }

  /**
   * `handle_forwarded_message`, step by step as the handler runs: the replacement loop,
   * the `+=` of the footer and channel lines, the overwrite when text is disabled, and
   * the media check last.
   */
  method HandleForwardedMessage(store: Store, u: UserId, text: Option<string>, hasPhoto: bool, shorten: Shortener)
    returns (o: Outcome, reply: string)
    ensures o == Transform(store.Find(u), text, hasPhoto, shorten)
    ensures reply == ReplyText(o)
  {
    var user := store.Find(u);
    if user.Some? && ApiKey in user.value {
      var userData := user.value;
      var messageText := MessageText(text);
      var urls := Urls(messageText);
      if urls != [] {
        var shortenedUrls := ShortenAll(shorten, Render(userData[ApiKey]), urls);
        var pairs := Zip(urls, shortenedUrls);
        var newMessage := ReplaceEach(messageText, pairs);
        assert shortenedUrls == Shortened(userData, messageText, shorten);
        newMessage := ApplySettings(userData, newMessage, shortenedUrls);
        if hasPhoto && !Truthy(Lookup(userData, PictureEnabled, Bool(true))) {
          o := MediaDisabled;
        } else {
          o := Reply(newMessage);
        }
      } else {
        o := NoUrls;
      }
    } else {
      o := NeedApiKey;
    }
    reply := ReplyText(o);
  }

  // ---------------------------------------------------------------------------
  // Properties of the handler.

  /**
   * Without an API key, or without a URL in the text, the reply does not depend on
   * the shortening service at all: no answer of the service can influence it.
   */
  lemma ShortenerNotConsulted(user: Option<Record>, text: Option<string>, hasPhoto: bool, s1: Shortener, s2: Shortener)
    requires !Eligible(user) || Urls(MessageText(text)) == []
    ensures Transform(user, text, hasPhoto, s1) == Transform(user, text, hasPhoto, s2)
    ensures Transform(user, text, hasPhoto, s1) == if Eligible(user) then NoUrls else NeedApiKey
  {
  }

  /** Replacing every URL by itself, in any order, leaves the text as it was. */
  lemma {:induction false} RecomposeBySelf(text: string, pairs: seq<(string, string)>)
    requires forall i :: 0 <= i < |pairs| ==> pairs[i].0 == pairs[i].1
    ensures Recompose(text, pairs) == text
  {
    if pairs != [] {
      var last := pairs[|pairs| - 1];
      RecomposeBySelf(text, pairs[..|pairs| - 1]);
      ReplaceBySelf(text, last.0);
    }
  }

  /**
   * A service that, for each URL, answers without `shortenedUrl` or with the URL itself
   * leaves every URL as it is.
   */
  lemma ShortenAllFallback(shorten: Shortener, apiKey: string, urls: seq<string>)
    requires forall i :: 0 <= i < |urls| ==>
               shorten(apiKey, urls[i]).None? || shorten(apiKey, urls[i]) == Some(urls[i])
    ensures ShortenAll(shorten, apiKey, urls) == urls
  {
  }

  /**
   * When the service never supplies a short link, the text comes back unchanged:
   * followed by the footer and channel lines when text is shown, and reduced to the
   * URLs themselves, space-joined, when it is not.
   */
  lemma IdentityShortener(user: Option<Record>, text: Option<string>, shorten: Shortener)
    requires Eligible(user)
    requires forall k, u :: shorten(k, u).None? || shorten(k, u) == Some(u)
    requires Urls(MessageText(text)) != []
    ensures TextShown(user.value) ==>
              Transform(user, text, false, shorten) ==
              Reply(MessageText(text) + FooterLine(user.value) + ChannelLine(user.value))
    ensures !TextShown(user.value) ==>
              Transform(user, text, false, shorten) == Reply(Join(Urls(MessageText(text)), " "))
  {
    var record, t := user.value, MessageText(text);
    var urls := Urls(t);
    ShortenAllFallback(shorten, Render(record[ApiKey]), urls);
    RecomposeBySelf(t, Zip(urls, urls));
  }

  /**
   * With text disabled, the reply is exactly the short links: when each of them is a
   * single word, splitting the reply gives back the list of short links, one per URL
   * of the message in order; the footer and the channel are gone.
   */
  lemma CollapsedReplyIsShortLinks(user: Option<Record>, text: Option<string>, hasPhoto: bool, shorten: Shortener)
    requires Eligible(user) && !TextShown(user.value)
    requires Transform(user, text, hasPhoto, shorten).Reply?
    requires forall i :: 0 <= i < |Shortened(user.value, MessageText(text), shorten)| ==>
               IsWord(Shortened(user.value, MessageText(text), shorten)[i])
    ensures var links := Shortened(user.value, MessageText(text), shorten);
            && Words(Transform(user, text, hasPhoto, shorten).text) == links
            && |links| == |Urls(MessageText(text))|
  {
    WordsOfJoin(Shortened(user.value, MessageText(text), shorten));
  }

  /**
   * For a document the commands wrote: the footer line is there exactly when a footer
   * is stored, the channel line exactly when a channel is stored, and the text and
   * pictures are hidden exactly when their switch is stored as false.
   */
  lemma SettingsOfWellFormed(users: Users, u: UserId)
    requires WellFormed(users) && u in users
    ensures var record := users[u];
            && (FooterLine(record) == if Footer in record then "\n" + record[Footer].s else "")
            && (ChannelLine(record) == if Channel in record then "\nChannel: " + record[Channel].s else "")
            && (!TextShown(record) <==> Lookup(record, TextEnabled, Bool(true)) == Bool(false))
            && (!PicturesShown(record) <==> Lookup(record, PictureEnabled, Bool(true)) == Bool(false))
  {
    var record := users[u];
    if Footer in record { assert WellTyped(Footer, record[Footer]); }
    if Channel in record { assert WellTyped(Channel, record[Channel]); }
    if TextEnabled in record { assert WellTyped(TextEnabled, record[TextEnabled]); }
    if PictureEnabled in record { assert WellTyped(PictureEnabled, record[PictureEnabled]); }
  }

  /**
   * `/add_api` is the only command that makes a user eligible: every other write, and
   * every removal (no command removes `api_key`), keeps eligibility as it was.
   */
  lemma EligibleOnlyThroughApiKey(users: Users, u: UserId, f: Field, v: Value)
    ensures Eligible(Some(SetField(users, u, f, v)[u])) <==>
              f == ApiKey || (u in users && Eligible(Some(users[u])))
    ensures f != ApiKey && u in users ==>
              (Eligible(Some(UnsetField(users, u, f)[u])) <==> Eligible(Some(users[u])))
  {
  }

  /** After `/add_api KEY` the user's forwarded messages are no longer refused for a missing key. */
  lemma AddApiMakesEligible(users: Users, u: UserId, key: string)
    ensures Eligible(Some(SetField(users, u, ApiKey, Str(key))[u]))
  {
  }

  /** After `/remove_footer` and `/remove_channel` no footer or channel line is appended. */
  lemma RemovedLinesNotAppended(users: Users, u: UserId)
    requires u in users
    ensures FooterLine(UnsetField(users, u, Footer)[u]) == ""
    ensures ChannelLine(UnsetField(users, u, Channel)[u]) == ""
  {
  }

  /** After `/disable_text` the reply collapses to the links; after `/enable_text` it does not. */
  lemma TextSwitch(users: Users, u: UserId)
    ensures !TextShown(SetField(users, u, TextEnabled, Bool(false))[u])
    ensures TextShown(SetField(users, u, TextEnabled, Bool(true))[u])
  {
  }

  // ---------------------------------------------------------------------------
  // Replace-all against a URL that extends an earlier one.

  /**
   * The words of a text with the k-th URL word replaced by the k-th short link:
   * what rewriting each URL where it stands yields.
   */
  function Substitute(ws: seq<string>, shorts: seq<string>): (r: seq<string>)
    ensures |r| == |ws|
  {
    if ws == [] then []
    else if IsUrl(ws[0]) && shorts != [] then [shorts[0]] + Substitute(ws[1..], shorts[1..])
    else [ws[0]] + Substitute(ws[1..], shorts)
  }

  /**
   * The replacement done at each URL's own position: the whitespace is kept, each word
   * that starts with "http" takes the next short link, every other word is kept.
   */
  function RewriteUrls(s: string, shorts: seq<string>): (r: string)
    decreases |s|
    ensures s == [] || IsSpace(s[0]) ==> r == [] || IsSpace(r[0])
  {
    if s == [] then []
    else if IsSpace(s[0]) then [s[0]] + RewriteUrls(s[1..], shorts)
    else
      var n := WordLen(s);
      if IsUrl(s[..n]) && shorts != [] then shorts[0] + RewriteUrls(s[n..], shorts[1..])
      else s[..n] + RewriteUrls(s[n..], shorts)
  }

  /** With no short links to hand out, the in-place rewrite gives the text back unchanged. */
  lemma {:induction false} RewriteUrlsWithoutLinks(s: string)
    ensures RewriteUrls(s, []) == s
    decreases |s|
  {
    if s != [] {
      if IsSpace(s[0]) {
        RewriteUrlsWithoutLinks(s[1..]);
        assert s == [s[0]] + s[1..];
      } else {
        var n := WordLen(s);
        RewriteUrlsWithoutLinks(s[n..]);
        assert s == s[..n] + s[n..];
      }
    }
  }

  /**
   * The in-place rewrite keeps every whitespace character of the text, in order: only
   * the words change, not the layout between them.
   */
  lemma {:induction false} RewriteUrlsKeepsSpaces(s: string, shorts: seq<string>)
    requires forall i :: 0 <= i < |shorts| ==> IsWord(shorts[i])
    ensures Spaces(RewriteUrls(s, shorts)) == Spaces(s)
    decreases |s|
  {
    if s != [] {
      if IsSpace(s[0]) {
        assert s == [s[0]] + s[1..];
        SpacesAppend([s[0]], s[1..]);
        SpacesAppend([s[0]], RewriteUrls(s[1..], shorts));
        RewriteUrlsKeepsSpaces(s[1..], shorts);
      } else {
        var n := WordLen(s);
        var w, rest := s[..n], s[n..];
        assert s == w + rest;
        SpacesAppend(w, rest);
        SpacesOfWord(w);
        if IsUrl(w) && shorts != [] {
          SpacesAppend(shorts[0], RewriteUrls(rest, shorts[1..]));
          SpacesOfWord(shorts[0]);
          RewriteUrlsKeepsSpaces(rest, shorts[1..]);
        } else {
          SpacesAppend(w, RewriteUrls(rest, shorts));
          RewriteUrlsKeepsSpaces(rest, shorts);
        }
      }
    }
  }

  /** Rewriting in place replaces the k-th URL word, and only it, by the k-th short link. */
  lemma {:induction false} RewriteUrlsWords(s: string, shorts: seq<string>)
    requires forall i :: 0 <= i < |shorts| ==> IsWord(shorts[i])
    ensures Words(RewriteUrls(s, shorts)) == Substitute(Words(s), shorts)
    decreases |s|
  {
    if s == [] {
      NoWords();
    } else if IsSpace(s[0]) {
      assert s == [s[0]] + s[1..];
      WordsAfterSpace(s[0], s[1..]);
      WordsAfterSpace(s[0], RewriteUrls(s[1..], shorts));
      RewriteUrlsWords(s[1..], shorts);
    } else {
      var n := WordLen(s);
      var w, rest := s[..n], s[n..];
      assert s == w + rest;
      assert IsWord(w);
      WordsOfWordThen(w, rest);
      var ws := Words(rest);
      assert ([w] + ws)[0] == w && ([w] + ws)[1..] == ws;
      if IsUrl(w) && shorts != [] {
        RewriteUrlsWords(rest, shorts[1..]);
        WordsOfWordThen(shorts[0], RewriteUrls(rest, shorts[1..]));
      } else {
        RewriteUrlsWords(rest, shorts);
        WordsOfWordThen(w, RewriteUrls(rest, shorts));
      }
    }
  }

  /** The words of two words joined by a space. */
  lemma WordsOfTwo(a: string, b: string)
    requires IsWord(a) && IsWord(b)
    ensures Words(a + " " + b) == [a, b]
  {
    var ws := [a, b];
    assert ws[1..] == [b];
    assert Join(ws, " ") == a + (" " + b) == a + " " + b;
    WordsOfJoin(ws);
  }

  /** The literals of the example are words, and the two URLs start with "http". */
  lemma PrefixedWords()
    ensures IsWord("http") && IsWord("http1") && IsWord("a") && IsWord("a1") && IsWord("b")
    ensures IsUrl("http") && IsUrl("http1")
  {
  }

  /** Two URLs, the second extending the first. */
  const PrefixedText: string := "http http1"

  /** Its words are the two URLs. */
  lemma PrefixedTextWords()
    ensures Words(PrefixedText) == ["http", "http1"]
    ensures Urls(PrefixedText) == ["http", "http1"]
  {
    PrefixedWords();
    WordsOfTwo("http", "http1");
    assert "http" + " " + "http1" == PrefixedText;
    var ws := ["http", "http1"];
    assert ws[1..] == ["http1"] && ws[1..][1..] == [];
  }

  /** One replace-all step of the handler on the message above. */
  lemma ReplaceFirstUrl()
    ensures ReplaceAll(PrefixedText, "http", "a") == "a a1"
  {
    assert ReplaceAll("1", "http", "a") == "1";
    assert "http1"[..4] == "http" && "http1"[4..] == "1";
    assert ReplaceAll("http1", "http", "a") == "a1";
    assert " http1"[0] == ' ' && " http1"[..4] != "http" && " http1"[1..] == "http1";
    assert ReplaceAll(" http1", "http", "a") == " a1";
    assert PrefixedText[..4] == "http" && PrefixedText[4..] == " http1";
  }

  /** Where the first URL ends and the second begins. */
  lemma PrefixedTextSplits()
    ensures WordLen(PrefixedText) == 4 && PrefixedText[..4] == "http" && PrefixedText[4..] == " http1"
  {
    PrefixedWords();
    WordLenOfWord("http", " http1");
    assert PrefixedText == "http" + " http1";
  }

  /** The second URL runs to the end of the text. */
  lemma SecondUrlSplits()
    ensures WordLen("http1") == 5 && "http1"[..5] == "http1" && "http1"[5..] == []
  {
    PrefixedWords();
    WordLenOfWord("http1", []);
    assert "http1" + [] == "http1";
  }

  /** The second URL is the last word, rewritten to the last short link. */
  lemma RewriteSecondUrl(b: string)
    ensures RewriteUrls(" http1", [b]) == " " + b
  {
    PrefixedWords();
    SecondUrlSplits();
    assert " http1"[1..] == "http1";
    assert [b][1..] == [];
    assert RewriteUrls("http1", [b]) == b + [];
  }

  /** Rewritten in place, the message becomes its two short links, whatever they are. */
  lemma RewriteUrlsKeepsExtendedUrl(a: string, b: string)
    ensures RewriteUrls(PrefixedText, [a, b]) == a + " " + b
  {
    PrefixedWords();
    PrefixedTextSplits();
    assert [a, b][1..] == [b];
    RewriteSecondUrl(b);
  }

  /** The second URL no longer occurs once the first has been replaced. */
  lemma ExtendedUrlGone()
    ensures !Occurs("http1", "a a1")
  {
    forall i | 0 <= i <= |"a a1"| ensures !StartsWith("a a1"[i..], "http1") {
    }
  }

  /**
   * As written, shortening "http" to "a" and "http1" to "b" gives "a a1": the first
   * replace-all also rewrote the start of the second URL, which is then never found,
   * so the second URL is neither shortened nor kept. Rewritten in place (see
   * RewriteUrlsKeepsExtendedUrl), the same message becomes "a b".
   */
  lemma ReplaceAllCorruptsExtendedUrl()
    ensures Recompose(PrefixedText, [("http", "a"), ("http1", "b")]) == "a a1"
  {
    var pairs := [("http", "a"), ("http1", "b")];
    assert pairs[..1] == [("http", "a")] && pairs[..1][..0] == [];
    calc {
      Recompose(PrefixedText, pairs);
      ReplaceAll(Recompose(PrefixedText, pairs[..1]), "http1", "b");
      ReplaceAll(ReplaceAll(PrefixedText, "http", "a"), "http1", "b");
      { ReplaceFirstUrl(); }
      ReplaceAll("a a1", "http1", "b");
      { ExtendedUrlGone(); ReplaceAbsent("a a1", "http1", "b"); }
      "a a1";
    }
  }

  /** The short links the handler fetches for the message above. */
  lemma PrefixedLinks(record: Record, shorten: Shortener)
    requires record == map[ApiKey := Str("k")]
    requires shorten("k", "http") == Some("a") && shorten("k", "http1") == Some("b")
    ensures Shortened(record, PrefixedText, shorten) == ["a", "b"]
  {
    PrefixedTextWords();
  }

  /** The pairs the replacement loop runs over for the message above. */
  lemma PrefixedPairs(record: Record, shorten: Shortener)
    requires record == map[ApiKey := Str("k")]
    requires shorten("k", "http") == Some("a") && shorten("k", "http1") == Some("b")
    ensures Zip(Urls(PrefixedText), Shortened(record, PrefixedText, shorten)) == [("http", "a"), ("http1", "b")]
  {
    PrefixedTextWords();
    PrefixedLinks(record, shorten);
  }

  /** The rewritten text, with no footer and no channel to add. */
  lemma PrefixedComposed(record: Record, shorten: Shortener)
    requires record == map[ApiKey := Str("k")]
    requires shorten("k", "http") == Some("a") && shorten("k", "http1") == Some("b")
    ensures Composed(record, PrefixedText, shorten) == "a a1"
  {
    var pairs := Zip(Urls(PrefixedText), Shortened(record, PrefixedText, shorten));
    calc {
      Composed(record, PrefixedText, shorten);
      Recompose(PrefixedText, pairs) + FooterLine(record) + ChannelLine(record);
      { PrefixedPairs(record, shorten); ReplaceAllCorruptsExtendedUrl(); }
      "a a1" + FooterLine(record) + ChannelLine(record);
      { assert FooterLine(record) == "" && ChannelLine(record) == ""; }
      "a a1";
    }
  }

  /**
   * The handler itself, for a user whose only setting is an API key, replies "a a1" to
   * the message "http http1" when the service answers "a" for "http" and "b" for "http1".
   */
  lemma HandlerCorruptsExtendedUrl(record: Record, shorten: Shortener)
    requires record == map[ApiKey := Str("k")]
    requires shorten("k", "http") == Some("a") && shorten("k", "http1") == Some("b")
    ensures Transform(Some(record), Some(PrefixedText), false, shorten) == Reply("a a1")
  {
    assert Eligible(Some(record)) && TextShown(record) && PicturesShown(record);
    assert MessageText(Some(PrefixedText)) == PrefixedText;
    calc {
      Transform(Some(record), Some(PrefixedText), false, shorten);
      { PrefixedTextWords(); }
      Reply(Composed(record, PrefixedText, shorten));
      { PrefixedComposed(record, shorten); }
      Reply("a a1");
    }
  }
}
