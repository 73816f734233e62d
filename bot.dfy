/** The bot itself: the two files it keeps, the chat it posts to and the replies it gives
    to commands, with the poll job and the two command handlers as methods proved
    against the engine's functions. */
module Bot {
  import opened Strings
  import opened Filter
  import opened Feed
  import opened Messages
  import opened Engine

  /** No element of `l` occurs twice. */
  predicate Distinct(l: seq<string>)
  {
    forall i, j :: 0 <= i < j < |l| ==> l[i] != l[j]
  }

  /** `l` lists the elements of `keys`, each once, in some order. */
  ghost predicate Enumerates(l: seq<string>, keys: set<string>)
  {
    Distinct(l) && forall k :: k in l <==> k in keys
  }

  /** `list(keys)`: the elements of a set in the set's own iteration order, which Python
      leaves unspecified and the model leaves open. */
  method ListOf(keys: set<string>) returns (l: seq<string>)
    ensures Enumerates(l, keys) && |l| == |keys|
  {
    l := [];
    var rest := keys;
    while rest != {}
      invariant rest <= keys
      invariant forall k :: k in l <==> k in keys && k !in rest
      invariant Distinct(l)
      invariant |l| + |rest| == |keys|
      decreases |rest|
    {
      var k :| k in rest;
      l := l + [k];
      rest := rest - {k};
    }
  }

  class Bot {
    /** `CHAT_ID`, the destination of every notification. */
    const chatId: string
    /** The content of `last_id.txt`; `None` when the file does not exist. */
    var lastIdFile: Option<string>
    /** The JSON list in `filter_key.json`; `None` when the file does not exist. */
    var keysFile: Option<seq<string>>
    /** Notifications delivered to `chatId`, oldest first. */
    var outbox: seq<string>
    /** Replies to the `key` and `resetid` commands, oldest first. */
    var replies: seq<string>

    /** The key set the keyword file holds, as `set(json.load(f))` reads it. */
    function Keys(): Option<set<string>>
      reads this`keysFile
    {
      match keysFile
      case None => None
      case Some(l) => Some(set k | k in l)
    }

    /** The bot's persisted state and outbox, as the engine sees them. */
    function State(): Store
      reads this`lastIdFile, this`keysFile, this`outbox
    {
      Store(lastIdFile, Keys(), outbox)
    }

    constructor (chatId: string, lastIdFile: Option<string>, keysFile: Option<seq<string>>)
      ensures this.chatId == chatId && this.lastIdFile == lastIdFile && this.keysFile == keysFile
      ensures outbox == [] && replies == []
    {
      this.chatId := chatId;
      this.lastIdFile := lastIdFile;
      this.keysFile := keysFile;
      outbox := [];
      replies := [];
    }

    /** `get_last_id`: the content as a text-mode read returns it, stripped. */
    method GetLastId() returns (id: Option<string>)
      ensures id.None? <==> lastIdFile.None?
      ensures id.Some? ==> id.value == Strip(Universal(lastIdFile.value))
      ensures id.Some? ==> Stripped(id.value) && '\r' !in id.value
    {
      if lastIdFile.None? {
        return None;
      }
      var content := Universal(lastIdFile.value);
      StripShape(content);
      if '\r' in Strip(content) {
        StripKeepsChars(content, '\r');
      }
      id := Some(Strip(content));
    }

    /** `set_last_id`: the file then holds `str(article_id)`. */
    method SetLastId(articleId: Json)
      modifies this`lastIdFile
      ensures lastIdFile == Some(PyStr(articleId))
    {
      lastIdFile := Some(PyStr(articleId));
    }

    /** `set_filter_keys`: the file then holds `list(keys)`, each key once. */
    method SetFilterKeys(keys: set<string>)
      modifies this`keysFile
      ensures keysFile.Some? && Enumerates(keysFile.value, keys)
      ensures Keys() == Some(keys)
    {
      var l := ListOf(keys);
      keysFile := Some(l);
      assert (set k | k in l) == keys;
    }

    /** `get_filter_keys`: the stored set; without a file, the default, which is written
        first. An existing file is not rewritten. */
    method GetFilterKeys() returns (keys: set<string>)
      modifies this`keysFile
      ensures keys == ReadKeys(old(Keys()))
      ensures Keys() == Some(keys)
      ensures old(keysFile).Some? ==> keysFile == old(keysFile)
      ensures State() == old(State()).(keysFile := Some(keys))
    {
      if keysFile.Some? {
        keys := set k | k in keysFile.value;
      } else {
        keys := DefaultKeys;
        SetFilterKeys(keys);
      }
    }

    /** `check_new_article`, from the fetched feed on. `sendOk` says whether
        `send_message` returns or raises, `now` is the time `get_wib_time` gives. */
    method CheckNewArticle(fetch: Fetch, now: string, sendOk: bool) returns (o: Outcome)
      modifies this`lastIdFile, this`keysFile, this`outbox
      ensures o == PollOutcome(old(State()), fetch, sendOk)
      ensures State() == Poll(old(State()), fetch, now, sendOk)
      ensures old(keysFile).Some? ==> keysFile == old(keysFile)
      ensures replies == old(replies)
    {
      if fetch.FetchFailed? {
        return FetchError;
      }
      o := CheckFetched(fetch.article, now, sendOk);
    }

    /** `check_new_article` once the feed gave an article. */
    method CheckFetched(artikel: Article, now: string, sendOk: bool) returns (o: Outcome)
      modifies this`lastIdFile, this`keysFile, this`outbox
      ensures o == Decide(old(State()), artikel, sendOk)
      ensures State() == Poll(old(State()), Fetched(artikel), now, sendOk)
      ensures old(keysFile).Some? ==> keysFile == old(keysFile)
    {
      ghost var st0 := State();
      var lastId := GetLastId();
      var judul := TitleOf(artikel);
      var link := LinkOf(artikel);
      var pesan := ArticleMessage(PyStr(judul), PyStr(link), now);
      assert pesan == MessageFor(artikel, now);
      var keys := GetFilterKeys();
      assert keys == ReadKeys(st0.keysFile);
      assert State() == st0.(keysFile := Some(keys));
      assert IdOrNone(lastId) == IdOrNone(ReadLastId(st0.lastIdFile));
      if IdText(artikel) != IdOrNone(lastId) {
        o := CheckArticle(artikel, keys, pesan, sendOk);
        assert o == Decide(st0, artikel, sendOk);
      } else {
        assert Decide(st0, artikel, sendOk) == AlreadySeen;
        o := AlreadySeen;
      }
      assert State() == Store(if o == Sent || o == Filtered then Some(IdText(artikel)) else st0.lastIdFile,
                              Some(keys),
                              if o == Sent then st0.outbox + [pesan] else st0.outbox);
    }

    /** The branch of `check_new_article` for an article whose id differs from the marker,
        once the key set is read: filter, send, and record the id. */
    method CheckArticle(artikel: Article, keys: set<string>, pesan: string, sendOk: bool)
      returns (o: Outcome)
      requires Keys() == Some(keys)
      requires IdText(artikel) != IdOrNone(ReadLastId(lastIdFile))
      modifies this`lastIdFile, this`outbox
      ensures o == Decide(old(State()), artikel, sendOk)
      ensures lastIdFile == if o == Sent || o == Filtered then Some(IdText(artikel)) else old(lastIdFile)
      ensures outbox == if o == Sent then old(outbox) + [pesan] else old(outbox)
    {
      ghost var d := Decide(State(), artikel, sendOk);
      assert ReadKeys(State().keysFile) == keys;
      var judul := TitleOf(artikel);
      if keys != {} && !judul.JStr? {
        // `judul.lower()` raises before any key is tested
        assert d == TitleError;
        return TitleError;
      }
      if keys != {} && !AnyKeyIn(keys, Lower(judul.s)) {
        assert d == Filtered;
        o := Filtered;
      } else if sendOk {
        assert d == Sent;
        outbox := outbox + [pesan];
        o := Sent;
      } else {
        // the exception skips `set_last_id`
        assert d == SendError;
        return SendError;
      }
      SetLastId(artikel.id);
    }

    /** The `key` command. `args` are the command's words; `replyOk` says whether
        `reply_text` returns or raises, which decides whether a toggle is persisted. */
    method Key(args: seq<string>, replyOk: bool)
      modifies this`keysFile, this`replies
      ensures State() == KeyStep(old(State()), args, replyOk)
      ensures (|args| == 0 || !replyOk) && old(keysFile).Some? ==> keysFile == old(keysFile)
      ensures |args| > 0 ==>
                replies == old(replies) +
                  if replyOk then [ToggleReply(ReadKeys(old(Keys())), Normalise(args[0]))] else []
      ensures |args| == 0 && replyOk && ReadKeys(old(Keys())) == {} ==>
                replies == old(replies) + [EmptyFilterReply(chatId)]
      ensures |args| == 0 && replyOk && ReadKeys(old(Keys())) != {} ==>
                exists l :: Enumerates(l, ReadKeys(old(Keys()))) &&
                            replies == old(replies) + [ActiveKeysReply(chatId, Join(l, ", "))]
      ensures !replyOk ==> replies == old(replies)
    {
      ghost var st0 := State();
      var keys := GetFilterKeys();
      assert keys == ReadKeys(st0.keysFile) && keys == ReadKeys(old(Keys()));
      if |args| > 0 {
        var word := Normalise(args[0]);
        ToggleWord(keys, word, replyOk);
        KeyStepWithWord(st0, args, replyOk);
      } else {
        assert State() == KeyStep(st0, args, replyOk);
        if replyOk {
          ShowFilters(keys);
        }
      }
    }

    /** `key <word>` once the key set is read: toggle the normalised `word`, reply, and only
        then write the set back. */
    method ToggleWord(keys: set<string>, word: string, replyOk: bool)
      requires Keys() == Some(keys)
      modifies this`keysFile, this`replies
      ensures State() == old(State()).(keysFile := Some(if replyOk then Toggle(keys, word) else keys))
      ensures replies == old(replies) + if replyOk then [ToggleReply(keys, word)] else []
      ensures !replyOk ==> keysFile == old(keysFile)
    {
      var updated := keys;
      if word in updated {
        updated := updated - {word};
        if !replyOk {
          return;
        }
        replies := replies + [RemovedReply(word)];
      } else {
        updated := updated + {word};
        if !replyOk {
          return;
        }
        replies := replies + [AddedReply(word)];
      }
      SetFilterKeys(updated);
    }

    /** `key` without a word: reply with the destination and the active keys, or say that
        the filter is empty. */
    method ShowFilters(keys: set<string>)
      modifies this`replies
      ensures keys == {} ==> replies == old(replies) + [EmptyFilterReply(chatId)]
      ensures keys != {} ==>
                exists l :: Enumerates(l, keys) &&
                            replies == old(replies) + [ActiveKeysReply(chatId, Join(l, ", "))]
    {
      if keys != {} {
        var daftar := ListOf(keys);
        replies := replies + [ActiveKeysReply(chatId, Join(daftar, ", "))];
      } else {
        replies := replies + [EmptyFilterReply(chatId)];
      }
    }

    /** The `resetid` command: remove the marker file, or report that it is missing. */
    method ResetId() returns (removed: bool)
      modifies this`lastIdFile, this`replies
      ensures removed <==> old(lastIdFile).Some?
      ensures State() == ResetStep(old(State()))
      ensures replies == old(replies) +
                [if removed then ResetDoneReply else ResetFailedReply(MissingMarkerError)]
    {
      if lastIdFile.Some? {
        lastIdFile := None;
        replies := replies + [ResetDoneReply];
        removed := true;
      } else {
        replies := replies + [ResetFailedReply(MissingMarkerError)];
        removed := false;
      }
    }
  }

  /** Every active key is named in the reply to `key` without an argument. */
  lemma ActiveKeysListed(l: seq<string>, keys: set<string>, k: string)
    requires Enumerates(l, keys) && k in keys
    ensures exists p :: OccursAt(Join(l, ", "), k, p)
  {
    var j :| 0 <= j < |l| && l[j] == k;
    JoinMentions(l, ", ", j);
  }
}
