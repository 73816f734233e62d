/** The dedup-and-filter decision engine as functions on the bot's persisted state,
    and what they guarantee across polls and commands. */
module Engine {
  import opened Strings
  import opened Filter
  import opened Feed
  import opened Messages

  /** The two persisted records and the chat's message history:
      `lastIdFile` is the content of `last_id.txt` (`None` when the file does not exist),
      `keysFile` the key set stored in `filter_key.json` (`None` when it does not exist),
      `outbox` the notifications delivered to the destination chat, oldest first. */
  datatype Store = Store(lastIdFile: Option<string>, keysFile: Option<set<string>>, outbox: seq<string>)

  /** What one poll did. */
  datatype Outcome =
    | FetchError   // the feed could not be fetched or decoded
    | AlreadySeen  // the latest article's id equals the stored one
    | TitleError   // the title is not a string and so cannot be lower-cased
    | Filtered     // new article, no key occurs in its title
    | Sent         // new article, notification delivered
    | SendError    // new article, delivery raised

  /** `get_last_id`: the file content as a text-mode read returns it (carriage returns
      turned into line feeds), stripped; `None` without a file. */
  function ReadLastId(file: Option<string>): (r: Option<string>)
    ensures r.None? <==> file.None?
  {
    match file
    case None => None
    case Some(c) => Some(Strip(Universal(c)))
  }

  /** `str(last_id)`: an absent marker reads as the text `None`. */
  function IdOrNone(id: Option<string>): string
  {
    match id
    case None => "None"
    case Some(s) => s
  }

  /** `get_filter_keys`: the stored set, or the default when no file exists. */
  function ReadKeys(file: Option<set<string>>): set<string>
  {
    match file
    case None => DefaultKeys
    case Some(keys) => keys
  }

  /** The notification for `a`, with the title and link printed by `str`. */
  function MessageFor(a: Article, now: string): string
  {
    ArticleMessage(PyStr(TitleOf(a)), PyStr(LinkOf(a)), now)
  }

  /** A missing title or link shows in the notification as its fallback text: the title on
      the third line, the link on the fourth. */
  lemma MessageFallbacks(a: Article, now: string)
    ensures '\n' !in PyStr(TitleOf(a)) ==>
              var lines := SplitLines(MessageFor(a, now));
              |lines| >= 4 && lines[2] == PyStr(TitleOf(a))
    ensures a.title.None? ==>
              var lines := SplitLines(MessageFor(a, now));
              |lines| >= 4 && lines[2] == TitleDefault
    ensures '\n' !in PyStr(TitleOf(a)) && a.link.None? ==>
              var lines := SplitLines(MessageFor(a, now));
              |lines| >= 4 && lines[3] == LinkDefault
  {
    var t := PyStr(TitleOf(a));
    if '\n' !in t {
      ArticleMessageFields(t, PyStr(LinkOf(a)), now);
    }
  }

  /** The decision `check_new_article` takes for a fetched article. */
  function Decide(st: Store, a: Article, sendOk: bool): (o: Outcome)
    ensures o != FetchError
    ensures o == AlreadySeen <==> IdText(a) == IdOrNone(ReadLastId(st.lastIdFile))
    ensures o == TitleError ==> ReadKeys(st.keysFile) != {} && !TitleOf(a).JStr?
    ensures o in {Sent, SendError} ==>
              ReadKeys(st.keysFile) == {} ||
              (TitleOf(a).JStr? && Passes(TitleOf(a).s, ReadKeys(st.keysFile)))
    ensures o == Filtered ==>
              ReadKeys(st.keysFile) != {} && TitleOf(a).JStr? &&
              !Passes(TitleOf(a).s, ReadKeys(st.keysFile))
    ensures o == Sent ==> sendOk
    ensures o == SendError ==> !sendOk
  {
    var keys := ReadKeys(st.keysFile);
    if IdText(a) == IdOrNone(ReadLastId(st.lastIdFile)) then AlreadySeen
    else if keys != {} && !TitleOf(a).JStr? then TitleError
    else if keys != {} && !Passes(TitleOf(a).s, keys) then Filtered
    else if sendOk then Sent
    else SendError
  }

  function PollOutcome(st: Store, fetch: Fetch, sendOk: bool): Outcome
  {
    match fetch
    case FetchFailed => FetchError
    case Fetched(a) => Decide(st, a, sendOk)
  }

  /** The state after one poll. Reading the key set persists the default even when the
      article turns out to be old; the id is stored only for a sent or a filtered article. */
  function Poll(st: Store, fetch: Fetch, now: string, sendOk: bool): (r: Store)
    ensures |st.outbox| <= |r.outbox| <= |st.outbox| + 1 && r.outbox[..|st.outbox|] == st.outbox
    ensures r.lastIdFile != st.lastIdFile ==>
              fetch.Fetched? && r.lastIdFile == Some(IdText(fetch.article))
    ensures fetch.Fetched? ==> r.keysFile.Some?
    ensures st.keysFile.Some? ==> r.keysFile == st.keysFile
  {
    match fetch
    case FetchFailed => st
    case Fetched(a) =>
      var o := Decide(st, a, sendOk);
      Store(if o == Sent || o == Filtered then Some(IdText(a)) else st.lastIdFile,
            Some(ReadKeys(st.keysFile)),
            if o == Sent then st.outbox + [MessageFor(a, now)] else st.outbox)
  }

  /** The state after the `key` command. With an argument the normalised word is toggled;
      the set is written only after the reply went out, so a failing reply loses the toggle. */
  function KeyStep(st: Store, args: seq<string>, replyOk: bool): (r: Store)
    ensures r.lastIdFile == st.lastIdFile && r.outbox == st.outbox && r.keysFile.Some?
    ensures forall k :: (k in r.keysFile.value) != (k in ReadKeys(st.keysFile)) ==>
              |args| > 0 && replyOk && k == Normalise(args[0])
    ensures |args| > 0 && replyOk ==>
              (Normalise(args[0]) in r.keysFile.value <==> Normalise(args[0]) !in ReadKeys(st.keysFile))
  {
    var keys := ReadKeys(st.keysFile);
    if |args| > 0 && replyOk then st.(keysFile := Some(Toggle(keys, Normalise(args[0]))))
    else st.(keysFile := Some(keys))
  }

  /** The reply to `key <word>`: removal when the normalised word was a key, addition otherwise. */
  function ToggleReply(keys: set<string>, word: string): string
  {
    if word in keys then RemovedReply(word) else AddedReply(word)
  }

  /** The state after `resetid`: the marker file is gone, whether or not it existed. */
  function ResetStep(st: Store): (r: Store)
    ensures ReadLastId(r.lastIdFile) == None && IdOrNone(ReadLastId(r.lastIdFile)) == "None"
    ensures r.keysFile == st.keysFile && r.outbox == st.outbox
  {
    st.(lastIdFile := None)
  }

  // ---- Polling ----

  /** A failed fetch changes nothing. */
  lemma FetchFailureChangesNothing(st: Store, now: string, sendOk: bool)
    ensures Poll(st, FetchFailed, now, sendOk) == st
    ensures PollOutcome(st, FetchFailed, sendOk) == FetchError
  {
  }

  /** An article whose id text equals the stored marker's (`None` when absent) sends
      nothing and leaves the marker alone. */
  lemma SeenArticleIsNoop(st: Store, a: Article, now: string, sendOk: bool)
    requires IdText(a) == IdOrNone(ReadLastId(st.lastIdFile))
    ensures Decide(st, a, sendOk) == AlreadySeen
    ensures Poll(st, Fetched(a), now, sendOk) ==
            st.(keysFile := Some(ReadKeys(st.keysFile)))
  {
  }

  /** A new article is sent exactly when the filter lets it through and delivery succeeds,
      and filtered exactly when a non-empty key set has no key in the lower-cased title. */
  lemma NewArticleDecision(st: Store, a: Article, sendOk: bool)
    requires IdText(a) != IdOrNone(ReadLastId(st.lastIdFile))
    requires TitleOf(a).JStr?
    ensures Decide(st, a, sendOk) in {Sent, SendError, Filtered}
    ensures Decide(st, a, sendOk) == Sent <==>
            sendOk && (ReadKeys(st.keysFile) == {} ||
                       exists k, i :: k in ReadKeys(st.keysFile) && OccursAt(Lower(TitleOf(a).s), k, i))
    ensures Decide(st, a, sendOk) == Filtered <==>
            ReadKeys(st.keysFile) != {} &&
            !exists k, i :: k in ReadKeys(st.keysFile) && OccursAt(Lower(TitleOf(a).s), k, i)
  {
    PassesIff(TitleOf(a).s, ReadKeys(st.keysFile));
  }

  /** With an empty key set every new article is sent, whatever its title. */
  lemma EmptyFilterSendsAll(st: Store, a: Article, now: string)
    requires ReadKeys(st.keysFile) == {}
    requires IdText(a) != IdOrNone(ReadLastId(st.lastIdFile))
    ensures Decide(st, a, true) == Sent
    ensures Poll(st, Fetched(a), now, true).outbox == st.outbox + [MessageFor(a, now)]
  {
  }

  /** A new article that is sent or filtered out is marked seen; only a sent one adds to
      the outbox, and it adds exactly its notification. */
  lemma NewArticleMarked(st: Store, a: Article, now: string, sendOk: bool)
    requires Decide(st, a, sendOk) in {Sent, Filtered}
    ensures IdText(a) != IdOrNone(ReadLastId(st.lastIdFile))
    ensures Poll(st, Fetched(a), now, sendOk).lastIdFile == Some(IdText(a))
    ensures Poll(st, Fetched(a), now, sendOk).outbox ==
            if Decide(st, a, sendOk) == Sent then st.outbox + [MessageFor(a, now)] else st.outbox
  {
  }

  /** When delivery raises, or the title cannot be lower-cased, the marker and the outbox
      stay as they were, so the same article is decided again on the next poll. */
  lemma FailedDecisionKeepsMarker(st: Store, a: Article, now: string, sendOk: bool)
    requires Decide(st, a, sendOk) in {SendError, TitleError}
    ensures Poll(st, Fetched(a), now, sendOk) == st.(keysFile := Some(ReadKeys(st.keysFile)))
    ensures Decide(Poll(st, Fetched(a), now, sendOk), a, sendOk) == Decide(st, a, sendOk)
  {
  }

  /** A title `.lower()` cannot take is met again on the next poll, whatever happened to
      the delivery: the article stays undecided for as long as the key set is non-empty. */
  lemma TitleErrorRepeats(st: Store, a: Article, now: string, ok1: bool, ok2: bool)
    requires Decide(st, a, ok1) == TitleError
    ensures Decide(Poll(st, Fetched(a), now, ok1), a, ok2) == TitleError
  {
  }

  /** At most once: after a poll that sent or filtered an article whose id text has no
      surrounding white space and no carriage return, polling the same article again is a no-op. */
  lemma {:induction false} SecondPollIsNoop(st: Store, a: Article, now1: string, now2: string, ok1: bool, ok2: bool)
    requires Stripped(IdText(a)) && '\r' !in IdText(a)
    requires Decide(st, a, ok1) in {Sent, Filtered}
    ensures Decide(Poll(st, Fetched(a), now1, ok1), a, ok2) == AlreadySeen
    ensures Poll(Poll(st, Fetched(a), now1, ok1), Fetched(a), now2, ok2) == Poll(st, Fetched(a), now1, ok1)
  {
    var st1 := Poll(st, Fetched(a), now1, ok1);
    assert st1.lastIdFile == Some(IdText(a)) && st1.keysFile.Some? by {
      NewArticleMarked(st, a, now1, ok1);
      PollPersistsKeys(st, a, now1, ok1);
    }
    assert IdText(a) == IdOrNone(ReadLastId(st1.lastIdFile)) by {
      ReadBackIff(IdText(a));
    }
    SeenArticleIsNoop(st1, a, now2, ok2);
    ReadKeysKeepsStore(st1);
  }

  /** Integer ids, the feed's usual kind, always satisfy the condition of `SecondPollIsNoop`. */
  lemma IntIdPolledOnce(st: Store, a: Article, n: int, now1: string, now2: string, ok1: bool, ok2: bool)
    requires a.id == JInt(n)
    requires Decide(st, a, ok1) in {Sent, Filtered}
    ensures Poll(Poll(st, Fetched(a), now1, ok1), Fetched(a), now2, ok2) == Poll(st, Fetched(a), now1, ok1)
  {
    ShowIntStripped(n);
    StripShape(ShowInt(n));
    ShowIntNoReturn(n);
    SecondPollIsNoop(st, a, now1, now2, ok1, ok2);
  }

  /** An id text with surrounding white space is stored as written but read back stripped,
      so the article never counts as seen and is decided again on every poll. */
  lemma PaddedIdNeverSeen(st: Store, a: Article, now: string, ok1: bool, ok2: bool)
    requires !Stripped(IdText(a))
    requires Decide(st, a, ok1) in {Sent, Filtered}
    ensures Decide(Poll(st, Fetched(a), now, ok1), a, ok2) != AlreadySeen
  {
    MarkedIdSeenIff(st, a, now, ok1, ok2);
  }

  /** An id text holding a carriage return is read back with a line feed in its place, so
      the article never counts as seen and is decided again on every poll. */
  lemma ReturnIdNeverSeen(st: Store, a: Article, now: string, ok1: bool, ok2: bool)
    requires '\r' in IdText(a)
    requires Decide(st, a, ok1) in {Sent, Filtered}
    ensures Decide(Poll(st, Fetched(a), now, ok1), a, ok2) != AlreadySeen
  {
    MarkedIdSeenIff(st, a, now, ok1, ok2);
  }

  /** After an article was sent or filtered, the next poll of it finds it seen exactly when
      its id text survives the trip through the marker file. */
  lemma MarkedIdSeenIff(st: Store, a: Article, now: string, ok1: bool, ok2: bool)
    requires Decide(st, a, ok1) in {Sent, Filtered}
    ensures Decide(Poll(st, Fetched(a), now, ok1), a, ok2) == AlreadySeen <==>
            Stripped(IdText(a)) && '\r' !in IdText(a)
  {
    var st1 := Poll(st, Fetched(a), now, ok1);
    assert st1.lastIdFile == Some(IdText(a)) by {
      NewArticleMarked(st, a, now, ok1);
    }
    ReadBackIff(IdText(a));
  }

  // ---- Stored records ----

  /** A marker text reads back unchanged exactly when it has no surrounding white space
      and no carriage return. */
  lemma {:induction false} ReadBackIff(t: string)
    ensures ReadLastId(Some(t)) == Some(t) <==> Stripped(t) && '\r' !in t
  {
    if Stripped(t) && '\r' !in t {
      UniversalFixed(t);
      StripFixed(t);
    }
    if Strip(Universal(t)) == t {
      StripShape(Universal(t));
      if '\r' in t {
        StripKeepsChars(Universal(t), '\r');
      }
    }
  }

  /** Writing an id and reading it back gives `str(id)` after the text-mode read and the
      strip; for an integer id that is its decimal text, which reads back as the same integer. */
  lemma LastIdRoundTrip(v: Json)
    ensures ReadLastId(Some(PyStr(v))) == Some(Strip(Universal(PyStr(v))))
    ensures v.JInt? ==> ReadLastId(Some(PyStr(v))) == Some(ShowInt(v.n)) &&
                        ParseInt(ShowInt(v.n)) == v.n
  {
    if v.JInt? {
      ShowIntReadsBack(v.n);
      ParseShowInt(v.n);
    }
  }

  /** The first read of a missing keyword file persists and returns the default; a read of
      an existing file returns its set and leaves the file as it is. */
  lemma KeysReadInitialises(file: Option<set<string>>)
    ensures file.None? ==> ReadKeys(file) == {"listing", "token"}
    ensures file.Some? ==> Some(ReadKeys(file)) == file
  {
  }

  /** Reading an existing keyword file leaves the whole state as it is. */
  lemma ReadKeysKeepsStore(st: Store)
    requires st.keysFile.Some?
    ensures st.(keysFile := Some(ReadKeys(st.keysFile))) == st
  {
  }

  /** Every poll that reaches the article leaves a keyword file behind. */
  lemma PollPersistsKeys(st: Store, a: Article, now: string, sendOk: bool)
    ensures Poll(st, Fetched(a), now, sendOk).keysFile == Some(ReadKeys(st.keysFile))
  {
  }

  // ---- Commands ----

  /** `key <word>` twice with the same word restores the key set (after the default is
      persisted), and no other key changes in between. */
  lemma KeyToggleTwice(st: Store, w: string, v: string)
    ensures KeyStep(KeyStep(st, [w], true), [w], true).keysFile == Some(ReadKeys(st.keysFile))
    ensures v != Normalise(w) ==>
            (v in KeyStep(st, [w], true).keysFile.value <==> v in ReadKeys(st.keysFile))
  {
    ToggleTwice(ReadKeys(st.keysFile), Normalise(w));
  }

  /** `key <word>` stores the toggled set when the reply went out and the set as read otherwise. */
  lemma KeyStepWithWord(st: Store, args: seq<string>, replyOk: bool)
    requires |args| > 0
    ensures KeyStep(st, args, replyOk) ==
            st.(keysFile := Some(if replyOk then Toggle(ReadKeys(st.keysFile), Normalise(args[0]))
                                 else ReadKeys(st.keysFile)))
  {
  }

  /** `key` without a word, or with a reply that fails, changes nothing beyond persisting
      the default key set. */
  lemma KeyWithoutToggle(st: Store, args: seq<string>, replyOk: bool)
    requires |args| == 0 || !replyOk
    ensures KeyStep(st, args, replyOk) == st.(keysFile := Some(ReadKeys(st.keysFile)))
    ensures st.keysFile.Some? ==> KeyStep(st, args, replyOk) == st
  {
  }

  /** Keys that entered through `key` are normalised, so they match case-insensitively. */
  lemma KeyKeepsNormalised(st: Store, args: seq<string>, replyOk: bool)
    requires AllNormalised(ReadKeys(st.keysFile))
    ensures AllNormalised(KeyStep(st, args, replyOk).keysFile.value)
  {
    if |args| > 0 && replyOk {
      ToggleKeepsNormalised(ReadKeys(st.keysFile), args[0]);
    }
  }

  /** After `resetid` the next poll decides the latest article afresh, even if it was the
      one last seen, unless its id text is `None` itself (a missing or null id), which an
      absent marker also reads as. */
  lemma ResetThenPoll(st: Store, a: Article, sendOk: bool)
    ensures Decide(ResetStep(st), a, sendOk) != AlreadySeen <==> IdText(a) != "None"
  {
  }

  /** Without a marker `resetid` changes nothing at all, so a second reset is a no-op. */
  lemma ResetWithoutMarkerIsNoop(st: Store)
    ensures st.lastIdFile.None? ==> ResetStep(st) == st
    ensures ResetStep(ResetStep(st)) == ResetStep(st)
  {
  }

  // ---- Worked cases ----

  const SampleTitle := "New Listing Announced"

  lemma SampleTitleLowered()
    ensures Lower(SampleTitle) == "new listing announced"
  {
  }

  lemma SampleTitleHasListing()
    ensures Contains("new listing announced", "listing")
  {
    var t := "new listing announced";
    assert t[4..11] == "listing";
    assert OccursAt(t, "listing", 4);
    ContainsIff(t, "listing");
  }

  lemma SampleTitleLacksAirdrop()
    ensures !Contains("new listing announced", "airdrop")
  {
    var t := "new listing announced";
    assert "airdrop"[6] == 'p' && 'p' !in t;
    MissingCharNotContained(t, "airdrop", 6);
  }

  /** The sample article: id 101, titled "New Listing Announced", no permalink. */
  function SampleArticle(): Article
  {
    Article(JInt(101), Some(JStr(SampleTitle)), None)
  }

  lemma SampleFacts()
    ensures IdText(SampleArticle()) == "101"
    ensures IdOrNone(ReadLastId(Some("100"))) == "100"
  {
    SampleIdText();
    MarkerReadsBack();
  }

  lemma SampleIdText()
    ensures IdText(SampleArticle()) == "101"
  {
    assert IdText(SampleArticle()) == ShowInt(101) == ShowNat(101);
    assert ShowNat(101) == ShowNat(10) + ['1'];
    assert ShowNat(10) == ShowNat(1) + ['0'];
  }

  /** The marker `100` as written reads back as `100`. */
  lemma MarkerReadsBack()
    ensures IdOrNone(ReadLastId(Some("100"))) == "100"
  {
    var t := "100";
    assert Stripped(t) && '\r' !in t;
    ReadBackIff(t);
  }

  /** Marker "100" and key `listing`: article 101 titled "New Listing Announced" is sent
      and marked. */
  lemma ListingKeySends(now: string)
    ensures Decide(Store(Some("100"), Some({"listing"}), []), SampleArticle(), true) == Sent
    ensures Poll(Store(Some("100"), Some({"listing"}), []), Fetched(SampleArticle()), now, true) ==
            Store(Some("101"), Some({"listing"}), [MessageFor(SampleArticle(), now)])
  {
    SampleFacts();
    var t := Lower(SampleTitle);
    assert Passes(SampleTitle, {"listing"}) by {
      SampleTitleLowered();
      SampleTitleHasListing();
      assert "listing" in {"listing"} && Contains(t, "listing");
    }
  }

  /** Marker "100" and key `airdrop`: the same article is not sent but still marked. */
  lemma AirdropKeyFilters(now: string)
    ensures Decide(Store(Some("100"), Some({"airdrop"}), []), SampleArticle(), true) == Filtered
    ensures Poll(Store(Some("100"), Some({"airdrop"}), []), Fetched(SampleArticle()), now, true) ==
            Store(Some("101"), Some({"airdrop"}), [])
  {
    SampleFacts();
    SampleTitleFailsAirdrop();
  }

  lemma SampleTitleFailsAirdrop()
    ensures !Passes(SampleTitle, {"airdrop"})
  {
    var t := Lower(SampleTitle);
    SampleTitleLowered();
    SampleTitleLacksAirdrop();
    forall k | k in {"airdrop"}
      ensures !Contains(t, k)
    {
      assert k == "airdrop";
    }
  }

  /** Marker "100" and article 100: nothing is sent and nothing changes. */
  lemma SeenScenario(now: string, sendOk: bool)
    ensures var st := Store(Some("100"), Some({"listing"}), []);
            var a := Article(JStr("100"), Some(JStr("New Listing Announced")), None);
            Decide(st, a, sendOk) == AlreadySeen && Poll(st, Fetched(a), now, sendOk) == st
  {
    var st := Store(Some("100"), Some({"listing"}), []);
    var a := Article(JStr("100"), Some(JStr("New Listing Announced")), None);
    assert IdText(a) == IdOrNone(ReadLastId(st.lastIdFile)) by {
      MarkerReadsBack();
    }
    SeenArticleIsNoop(st, a, now, sendOk);
    ReadKeysKeepsStore(st);
  }
}
