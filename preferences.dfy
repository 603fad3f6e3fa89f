/**
 * The per-user preference documents of the bot and the commands that change them.
 * Each user's document maps field names to values; a command either sets one field
 * (MongoDB `$set` with `upsert=True`, which creates the document when it is missing)
 * or removes one (`$unset` without upsert, which never creates a document).
 */
module Preferences {
  import opened Options
  import opened PyText

  /** The Telegram user id that keys a document (`_id`). */
  type UserId = int

  /** The fields a command can write: `api_key`, `channel`, `footer`, `text_enabled`, `picture_enabled`, `language`. */
  datatype Field = ApiKey | Channel | Footer | TextEnabled | PictureEnabled | Language

  /** A stored value: the commands store strings and booleans. */
  datatype Value = Str(s: string) | Bool(b: bool)

  /** One user's document, without its `_id`. */
  type Record = map<Field, Value>

  /** The whole collection. */
  type Users = map<UserId, Record>

  /** Python truthiness of a stored value: a non-empty string, or `True`. */
  predicate Truthy(v: Value) {
    match v
    case Str(s) => s != []
    case Bool(b) => b
  }

  /** How an f-string renders a stored value. */
  function Render(v: Value): string {
    match v
    case Str(s) => s
    case Bool(b) => if b then "True" else "False"
  }

  /** `record.get(f, default)`. */
  function Lookup(record: Record, f: Field, default: Value): Value {
    if f in record then record[f] else default
  }

  /** `update_one({"_id": u}, {"$set": {f: v}}, upsert=True)`. */
  function SetField(users: Users, u: UserId, f: Field, v: Value): (r: Users)
    ensures r.Keys == users.Keys + {u}
    ensures f in r[u] && r[u][f] == v
    ensures forall g :: g != f ==> (g in r[u] <==> u in users && g in users[u])
    ensures forall g :: g != f && g in r[u] ==> r[u][g] == users[u][g]
    ensures forall w :: w in users && w != u ==> r[w] == users[w]
  {
    var old_record := if u in users then users[u] else map[];
    users[u := old_record[f := v]]
  }

  /** `update_one({"_id": u}, {"$unset": {f: ""}})`, without upsert. */
  function UnsetField(users: Users, u: UserId, f: Field): (r: Users)
    ensures r.Keys == users.Keys
    ensures forall w :: w in users && w != u ==> r[w] == users[w]
    ensures u in users ==> r[u].Keys == users[u].Keys - {f}
    ensures u in users ==> forall g :: g in r[u] ==> r[u][g] == users[u][g]
  {
    if u in users then users[u := users[u] - {f}] else users
  }

  /** Setting a field twice to the same value is the same as setting it once. */
  lemma SetIdempotent(users: Users, u: UserId, f: Field, v: Value)
    ensures SetField(SetField(users, u, f, v), u, f, v) == SetField(users, u, f, v)
  {
    var once := SetField(users, u, f, v);
    assert once[u][f := v] == once[u];
  }

  /** The last of two writes to the same field wins. */
  lemma SetOverwrites(users: Users, u: UserId, f: Field, v1: Value, v2: Value)
    ensures SetField(SetField(users, u, f, v1), u, f, v2) == SetField(users, u, f, v2)
  {
    var old_record := if u in users then users[u] else map[];
    assert old_record[f := v1][f := v2] == old_record[f := v2];
  }

  /** Removing a field twice is the same as removing it once. */
  lemma UnsetIdempotent(users: Users, u: UserId, f: Field)
    ensures UnsetField(UnsetField(users, u, f), u, f) == UnsetField(users, u, f)
  {
    if u in users {
      assert users[u] - {f} - {f} == users[u] - {f};
    }
  }

  /** Removing a field of a user without a document changes nothing and creates nothing. */
  lemma UnsetAbsentUser(users: Users, u: UserId, f: Field)
    requires u !in users
    ensures UnsetField(users, u, f) == users
    ensures u !in UnsetField(users, u, f)
  {
  }

  /** After a write, reading the field gives the value written, whatever the default. */
  lemma LookupAfterSet(users: Users, u: UserId, f: Field, v: Value, default: Value)
    ensures Lookup(SetField(users, u, f, v)[u], f, default) == v
  {
  }

  /** A write leaves the reading of every other field of the document as it was. */
  lemma LookupOtherField(users: Users, u: UserId, f: Field, g: Field, v: Value, default: Value)
    requires g != f
    ensures Lookup(SetField(users, u, f, v)[u], g, default) ==
            Lookup(if u in users then users[u] else map[], g, default)
  {
  }

  /** After a removal, reading the field falls back to the default. */
  lemma LookupAfterUnset(users: Users, u: UserId, f: Field, default: Value)
    requires u in users
    ensures Lookup(UnsetField(users, u, f)[u], f, default) == default
  {
  }

  /** The kind of value each field holds when only the commands write it. */
  predicate WellTyped(f: Field, v: Value) {
    if f == TextEnabled || f == PictureEnabled then v.Bool? else v.Str? && v.s != []
  }

  /** Every field of every document holds the kind of value its command writes. */
  predicate WellFormed(users: Users) {
    forall u, f :: u in users && f in users[u] ==> WellTyped(f, users[u][f])
  }

  /** Writing a well-typed value keeps every document well formed. */
  lemma SetKeepsWellFormed(users: Users, u: UserId, f: Field, v: Value)
    requires WellFormed(users) && WellTyped(f, v)
    ensures WellFormed(SetField(users, u, f, v))
  {
    var r := SetField(users, u, f, v);
    forall w, g | w in r && g in r[w] ensures WellTyped(g, r[w][g]) {
      if w == u && g != f {
        assert r[w][g] == users[w][g];
      }
    }
  }

  /** Removing a field keeps every document well formed. */
  lemma UnsetKeepsWellFormed(users: Users, u: UserId, f: Field)
    requires WellFormed(users)
    ensures WellFormed(UnsetField(users, u, f))
  {
    var r := UnsetField(users, u, f);
    forall w, g | w in r && g in r[w] ensures WellTyped(g, r[w][g]) {
      assert r[w][g] == users[w][g];
    }
  }

  /** `context.args[0] if context.args else None`. */
  function FirstArg(args: seq<string>): (a: Option<string>)
    ensures Given(a) ==> |args| > 0 && a.value == args[0]
    ensures (forall i :: 0 <= i < |args| ==> IsWord(args[i])) ==> (Given(a) <==> |args| > 0)
  {
    if |args| > 0 then Some(args[0]) else None
  }

  /** `' '.join(context.args) if context.args else None`. */
  function AllArgs(args: seq<string>): (a: Option<string>)
    ensures Given(a) ==> |args| > 0 && a.value == Join(args, " ")
    ensures (forall i :: 0 <= i < |args| ==> IsWord(args[i])) ==> (Given(a) <==> |args| > 0)
  {
    if |args| > 0 then Some(Join(args, " ")) else None
  }

  /** The handlers' `if value:` test: an argument is there and is a non-empty string. */
  predicate Given(a: Option<string>) {
    a.Some? && a.value != []
  }

  /** The footer keeps the command's words: splitting it again gives the arguments back. */
  lemma FooterKeepsArgs(args: seq<string>)
    requires |args| > 0
    requires forall i :: 0 <= i < |args| ==> IsWord(args[i])
    ensures Given(AllArgs(args))
    ensures Words(AllArgs(args).value) == args
  {
    WordsOfJoin(args);
    assert Join(args, " ") != [] by {
      if Join(args, " ") == [] {
        NoWords();
      }
    }
  }

  /** The document collection the command handlers update. */
  class Store {
    var users: Users

    /** An empty collection. */
    constructor ()
      ensures users == map[]
    {
      users := map[];
    }

    /** `users_collection.find_one({"_id": u})`. */
    function Find(u: UserId): Option<Record>
      reads this
    {
      if u in users then Some(users[u]) else None
    }

    /** `update_one({"_id": u}, {"$set": {f: v}}, upsert=True)` on the collection. */
    method Upsert(u: UserId, f: Field, v: Value)
      modifies this
      ensures users == SetField(old(users), u, f, v)
      ensures Find(u).Some? && f in Find(u).value && Find(u).value[f] == v
      ensures WellFormed(old(users)) && WellTyped(f, v) ==> WellFormed(users)
    {
      if WellFormed(users) && WellTyped(f, v) {
        SetKeepsWellFormed(users, u, f, v);
      }
      users := SetField(users, u, f, v);
    }

    /** `update_one({"_id": u}, {"$unset": {f: ""}})` on the collection. */
    method Unset(u: UserId, f: Field)
      modifies this
      ensures users == UnsetField(old(users), u, f)
      ensures Find(u).Some? <==> old(Find(u)).Some?
      ensures Find(u).Some? ==> f !in Find(u).value
      ensures WellFormed(old(users)) ==> WellFormed(users)
    {
      if WellFormed(users) {
        UnsetKeepsWellFormed(users, u, f);
      }
      users := UnsetField(users, u, f);
    }

    /** `/add_api KEY`. */
    method AddApi(u: UserId, args: seq<string>) returns (reply: string)
      modifies this
      ensures Given(FirstArg(args)) ==> users == SetField(old(users), u, ApiKey, Str(args[0]))
      ensures Given(FirstArg(args)) ==> Find(u).Some? && Find(u).value[ApiKey] == Str(args[0])
      ensures !Given(FirstArg(args)) ==> users == old(users)
      ensures WellFormed(old(users)) ==> WellFormed(users)
      ensures reply == if Given(FirstArg(args)) then "Your API key has been added successfully!"
                       else "Please provide an API key like this: /add_api YOUR_API_KEY"
    {
      var apiKey := FirstArg(args);
      if Given(apiKey) {
        Upsert(u, ApiKey, Str(apiKey.value));
        reply := "Your API key has been added successfully!";
      } else {
        reply := "Please provide an API key like this: /add_api YOUR_API_KEY";
      }
    }

    /** `/add_channel LINK`. */
    method AddChannel(u: UserId, args: seq<string>) returns (reply: string)
      modifies this
      ensures Given(FirstArg(args)) ==> users == SetField(old(users), u, Channel, Str(args[0]))
      ensures !Given(FirstArg(args)) ==> users == old(users)
      ensures WellFormed(old(users)) ==> WellFormed(users)
      ensures reply == if Given(FirstArg(args)) then "Channel " + args[0] + " added."
                       else "Please provide a channel link like this: /add_channel @channel_username or https://t.me/channel_link"
    {
      var channelLink := FirstArg(args);
      if Given(channelLink) {
        Upsert(u, Channel, Str(channelLink.value));
        reply := "Channel " + channelLink.value + " added.";
      } else {
        reply := "Please provide a channel link like this: /add_channel @channel_username or https://t.me/channel_link";
      }
    }

    /** `/remove_channel`: removes the field, and creates no document for a user who has none. */
    method RemoveChannel(u: UserId) returns (reply: string)
      modifies this
      ensures users == UnsetField(old(users), u, Channel)
      ensures Find(u).Some? ==> Channel !in Find(u).value
      ensures WellFormed(old(users)) ==> WellFormed(users)
      ensures reply == "Channel removed successfully!"
    {
      Unset(u, Channel);
      reply := "Channel removed successfully!";
    }

    /** `/add_footer WORDS...`: the footer is all arguments joined by single spaces. */
    method AddFooter(u: UserId, args: seq<string>) returns (reply: string)
      modifies this
      ensures Given(AllArgs(args)) ==> users == SetField(old(users), u, Footer, Str(Join(args, " ")))
      ensures !Given(AllArgs(args)) ==> users == old(users)
      ensures WellFormed(old(users)) ==> WellFormed(users)
      ensures reply == if Given(AllArgs(args)) then "Footer added: " + Join(args, " ")
                       else "Please provide a footer text like this: /add_footer Your custom footer"
    {
      var footer := AllArgs(args);
      if Given(footer) {
        Upsert(u, Footer, Str(footer.value));
        reply := "Footer added: " + footer.value;
      } else {
        reply := "Please provide a footer text like this: /add_footer Your custom footer";
      }
    }

    /** `/remove_footer`: removes the field, and creates no document for a user who has none. */
    method RemoveFooter(u: UserId) returns (reply: string)
      modifies this
      ensures users == UnsetField(old(users), u, Footer)
      ensures Find(u).Some? ==> Footer !in Find(u).value
      ensures WellFormed(old(users)) ==> WellFormed(users)
      ensures reply == "Footer removed successfully!"
    {
      Unset(u, Footer);
      reply := "Footer removed successfully!";
    }

    /** `/disable_text`. */
    method DisableText(u: UserId) returns (reply: string)
      modifies this
      ensures users == SetField(old(users), u, TextEnabled, Bool(false))
      ensures WellFormed(old(users)) ==> WellFormed(users)
      ensures reply == "Text disabled for forwarded posts."
    {
      Upsert(u, TextEnabled, Bool(false));
      reply := "Text disabled for forwarded posts.";
    }

    /** `/enable_text`. */
    method EnableText(u: UserId) returns (reply: string)
      modifies this
      ensures users == SetField(old(users), u, TextEnabled, Bool(true))
      ensures WellFormed(old(users)) ==> WellFormed(users)
      ensures reply == "Text enabled for forwarded posts."
    {
      Upsert(u, TextEnabled, Bool(true));
      reply := "Text enabled for forwarded posts.";
    }

    /** `/enable_picture`. */
    method EnablePicture(u: UserId) returns (reply: string)
      modifies this
      ensures users == SetField(old(users), u, PictureEnabled, Bool(true))
      ensures WellFormed(old(users)) ==> WellFormed(users)
      ensures reply == "Pictures and videos enabled for forwarded posts."
    {
      Upsert(u, PictureEnabled, Bool(true));
      reply := "Pictures and videos enabled for forwarded posts.";
    }

    /** `/disable_picture`. */
    method DisablePicture(u: UserId) returns (reply: string)
      modifies this
      ensures users == SetField(old(users), u, PictureEnabled, Bool(false))
      ensures WellFormed(old(users)) ==> WellFormed(users)
      ensures reply == "Pictures and videos disabled for forwarded posts."
    {
      Upsert(u, PictureEnabled, Bool(false));
      reply := "Pictures and videos disabled for forwarded posts.";
    }

    /** `/change_language CODE`. */
    method ChangeLanguage(u: UserId, args: seq<string>) returns (reply: string)
      modifies this
      ensures Given(FirstArg(args)) ==> users == SetField(old(users), u, Language, Str(args[0]))
      ensures !Given(FirstArg(args)) ==> users == old(users)
      ensures WellFormed(old(users)) ==> WellFormed(users)
      ensures reply == if Given(FirstArg(args)) then "Language changed to " + args[0] + "."
                       else "Please provide a language like this: /change_language en or /change_language es"
    {
      var language := FirstArg(args);
      if Given(language) {
        Upsert(u, Language, Str(language.value));
        reply := "Language changed to " + language.value + ".";
      } else {
        reply := "Please provide a language like this: /change_language en or /change_language es";
      }
    }
  }
}
