/** The texts the bot sends: the article notification and the command replies. */
module Messages {
  import opened Strings

  const Header := "Indodax Academy News Update:"
  const DatePrefix := "Tanggal Update: "

  /** The notification for a new article, written as five lines: a header, a blank line,
      the title, the link and the time of the poll. `now` is what `get_wib_time` returned. */
  function ArticleMessage(title: string, link: string, now: string): string
  {
    Join([Header, "", title, link, DatePrefix + now], "\n")
  }

  /** When title, link and time hold no line feed, the notification reads back as its
      five lines. */
  lemma ArticleMessageLines(title: string, link: string, now: string)
    requires '\n' !in title && '\n' !in link && '\n' !in now
    ensures SplitLines(ArticleMessage(title, link, now)) ==
            [Header, "", title, link, DatePrefix + now]
  {
    assert '\n' !in DatePrefix + now;
    SplitJoin([Header, "", title, link, DatePrefix + now]);
  }

  /** The third line of the notification is the title; when the title holds no line feed,
      the fourth is the link, whatever the link and the time hold. */
  lemma ArticleMessageFields(title: string, link: string, now: string)
    requires '\n' !in title
    ensures var lines := SplitLines(ArticleMessage(title, link, now));
            |lines| >= 4 && lines[2] == title && ('\n' !in link ==> lines[3] == link)
  {
    var l := [Header, "", title, link, DatePrefix + now];
    assert l[1..] == ["", title, link, DatePrefix + now];
    assert l[2..] == [title, link, DatePrefix + now];
    assert l[3..] == [link, DatePrefix + now];
    assert l[4..] == [DatePrefix + now];
    SplitAfterLine(title, Join(l[3..], "\n"));
    SplitAfterLine("", Join(l[2..], "\n"));
    SplitAfterLine(Header, Join(l[1..], "\n"));
    if '\n' !in link {
      SplitAfterLine(link, Join(l[4..], "\n"));
    }
  }

  function RemovedReply(word: string): string
  {
    "Kata kunci '" + word + "' dihapus dari filter."
  }

  function AddedReply(word: string): string
  {
    "Kata kunci '" + word + "' ditambahkan ke filter."
  }

  /** The reply to `key` without an argument when some keys are active; `listed` is the
      comma-joined key list. */
  function ActiveKeysReply(chatId: string, listed: string): string
  {
    "Chat ID tujuan: `" + chatId + "`\n" + "Daftar kata kunci filter aktif: " + listed
  }

  /** The reply to `key` without an argument when the key set is empty. */
  function EmptyFilterReply(chatId: string): string
  {
    "Chat ID tujuan: `" + chatId + "`\n" + "Filter kosong. Semua artikel akan dikirim."
  }

  const ResetDoneReply := "last_id.txt sudah direset. Artikel terbaru akan dikirim lagi jika sesuai filter."

  /** `str(e)` of the `FileNotFoundError` that `os.remove` raises for a missing marker. */
  const MissingMarkerError := "[Errno 2] No such file or directory: 'last_id.txt'"

  function ResetFailedReply(error: string): string
  {
    "Gagal reset: " + error
  }
}
