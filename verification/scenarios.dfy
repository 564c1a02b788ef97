/**
 * The whole model applied to single-folder mailboxes: a general one, the
 * three-message INBOX of 500, 1500 and 2500 bytes, and a folder whose SEARCH answer has a gap,
 * where the `lo:hi` range fetches a message SEARCH did not return.
 */
module Scenarios {
  import opened Wrappers
  import opened Decimal
  import opened Strings
  import opened Imap
  import opened Listing
  import opened Sizing
  import opened Units
  import opened Report

  const NoChildren: string := "(\\HasNoChildren)"

  /**
   * An account with one folder `name`: SELECT reports `count` messages,
   * SEARCH ALL returns `ids`, and a FETCH of the range from the smallest to
   * the largest of them returns messages `msgs` with sizes `sizes`.
   */
  function MailboxServer(name: string, count: nat, ids: seq<nat>, msgs: seq<nat>, sizes: seq<nat>): Server
    requires |ids| > 0 && |msgs| == |sizes|
  {
    (c: Command) => match c
      case List => Response("OK", [NoChildren + Delimiter + name])
      case Select(m, _) => if m == name then Response("OK", [Show(count)]) else Response("NO", [])
      case Search(_, _) => Response("OK", [SearchText(ids)])
      case Fetch(_, s, _) =>
        if s == Show(Min(ids)) + ":" + Show(Max(ids)) then Response("OK", FetchLines(msgs, sizes))
        else Response("NO", [])
  }

  lemma MailboxAnswers(name: string, count: nat, ids: seq<nat>, msgs: seq<nat>, sizes: seq<nat>)
    requires |ids| > 0 && |msgs| == |sizes|
    ensures Selected(MailboxServer(name, count, ids, msgs, sizes), name) == Response("OK", [Show(count)])
    ensures Searched(MailboxServer(name, count, ids, msgs, sizes), name) == Response("OK", [SearchText(ids)])
    ensures MailboxServer(name, count, ids, msgs, sizes)(Fetch(name, MessageSet(ids), SizeItems))
            == Response("OK", FetchLines(msgs, sizes))
  {
  }

  /** Such a folder yields SELECT's count and the sum and maximum of the fetched sizes. */
  lemma MailboxFolderSize(name: string, count: nat, ids: seq<nat>, msgs: seq<nat>, sizes: seq<nat>)
    requires |ids| > 0 && |msgs| == |sizes| > 0 && count > 0
    ensures Handled(MailboxServer(name, count, ids, msgs, sizes), name)
    ensures FolderSize(MailboxServer(name, count, ids, msgs, sizes), name)
            == Some(Stats(count, Sum(sizes), Max(sizes)))
  {
    MailboxAnswers(name, count, ids, msgs, sizes);
    FolderSizeOfAnswers(MailboxServer(name, count, ids, msgs, sizes), name, count, ids, msgs, sizes);
  }

  /** LIST answers with the one folder, and its name is read back. */
  lemma MailboxFolders(name: string, count: nat, ids: seq<nat>, msgs: seq<nat>, sizes: seq<nat>)
    requires '"' !in name
    requires |ids| > 0 && |msgs| == |sizes|
    ensures ListHandled(MailboxServer(name, count, ids, msgs, sizes)(List))
    ensures Folders(MailboxServer(name, count, ids, msgs, sizes)) == [name]
  {
    var entry := NoChildren + Delimiter + name;
    assert OccursAt(entry, Delimiter, |NoChildren|);
    QuoteFreeIsSeparated(name);
    FolderNameOfEntry(NoChildren, name, "");
  }

  /** The report for such an account is the one line of its folder. */
  lemma MailboxUsage(name: string, count: nat, ids: seq<nat>, msgs: seq<nat>, sizes: seq<nat>, opts: Options)
    requires '"' !in name
    requires |ids| > 0 && |msgs| == |sizes| > 0 && count > 0
    ensures Runnable(MailboxServer(name, count, ids, msgs, sizes))
    ensures Usage(MailboxServer(name, count, ids, msgs, sizes), opts)
            == [Line(name, Stats(count, Sum(sizes), Max(sizes)), opts)]
  {
    MailboxFolders(name, count, ids, msgs, sizes);
    MailboxFolderSize(name, count, ids, msgs, sizes);
    SingleFolderUsage(MailboxServer(name, count, ids, msgs, sizes), name, Stats(count, Sum(sizes), Max(sizes)), opts);
  }

  lemma InboxShows()
    ensures Show(3) == "3" && Show(4500) == "4500" && Show(2500) == "2500"
  {
    assert Show(45) == "45" && Show(450) == "450";
    assert Show(25) == "25" && Show(250) == "250";
  }

  lemma InboxFields()
    ensures Fields("INBOX", Stats(3, 4500, 2500), true) == ["3", "INBOX", "4.4K", "2.4K"]
    ensures Fields("INBOX", Stats(3, 4500, 2500), false) == ["3", "INBOX", "4500", "2500"]
  {
    InboxShows();
    ToSizeExampleFolder();
  }

  // InboxTextCount, InboxTextTotal, InboxTextBiggest, InboxCsvText,
  // InboxTotals and GappedTotals only evaluate literal concatenations and
  // sums. Each is a lemma of its own so that the proofs using them stay small.

  lemma InboxTextCount()
    ensures "3" + " Messages in " + "INBOX" == "3 Messages in INBOX"
  {
    assert "3" + " Messages in " == "3 Messages in ";
  }

  lemma InboxTextTotal()
    ensures "3 Messages in INBOX" + " taking up " + "4.4K" == "3 Messages in INBOX taking up 4.4K"
  {
    assert "3 Messages in INBOX" + " taking up " == "3 Messages in INBOX taking up ";
  }

  lemma InboxTextBiggest()
    ensures "3 Messages in INBOX taking up 4.4K" + " biggest message " + "2.4K"
            == "3 Messages in INBOX taking up 4.4K biggest message 2.4K"
  {
    assert "3 Messages in INBOX taking up 4.4K" + " biggest message "
           == "3 Messages in INBOX taking up 4.4K biggest message ";
  }

  lemma InboxHumanText()
    ensures "3" + " Messages in " + "INBOX" + " taking up " + "4.4K" + " biggest message " + "2.4K"
            == "3 Messages in INBOX taking up 4.4K biggest message 2.4K"
  {
    InboxTextCount();
    InboxTextTotal();
    InboxTextBiggest();
  }

  lemma InboxCsvText()
    ensures "3" + "," + "INBOX" + "," + "4.4K" + "," + "2.4K" == "3,INBOX,4.4K,2.4K"
    ensures "3" + "," + "INBOX" + "," + "4500" + "," + "2500" == "3,INBOX,4500,2500"
  {
    assert "3" + "," + "INBOX" + "," == "3,INBOX,";
    assert "3,INBOX," + "4.4K" + "," == "3,INBOX,4.4K,";
    assert "3,INBOX," + "4500" + "," == "3,INBOX,4500,";
  }

  lemma InboxLineTexts()
    ensures Line("INBOX", Stats(3, 4500, 2500), Options(false, true))
            == "3 Messages in INBOX taking up 4.4K biggest message 2.4K"
    ensures Line("INBOX", Stats(3, 4500, 2500), Options(true, true)) == "3,INBOX,4.4K,2.4K"
    ensures Line("INBOX", Stats(3, 4500, 2500), Options(true, false)) == "3,INBOX,4500,2500"
  {
    InboxFields();
    InboxHumanText();
    InboxCsvText();
  }

  /** One folder, INBOX, holding messages 1..3 of 500, 1500 and 2500 bytes. */
  function InboxServer(): Server {
    MailboxServer("INBOX", 3, [1, 2, 3], [1, 2, 3], [500, 1500, 2500])
  }

  lemma InboxTotals()
    ensures Sum([500, 1500, 2500]) == 4500 && Max([500, 1500, 2500]) == 2500
  {
  }

  lemma InboxUsage(opts: Options)
    ensures Runnable(InboxServer())
    ensures Usage(InboxServer(), opts)
            == [Line("INBOX", Stats(3, Sum([500, 1500, 2500]), Max([500, 1500, 2500])), opts)]
  {
    MailboxUsage("INBOX", 3, [1, 2, 3], [1, 2, 3], [500, 1500, 2500], opts);
  }

  /** The output for an INBOX of 500, 1500 and 2500 bytes in each mode. */
  lemma InboxReport()
    ensures Runnable(InboxServer())
    ensures Usage(InboxServer(), Options(false, true)) == ["3 Messages in INBOX taking up 4.4K biggest message 2.4K"]
    ensures Usage(InboxServer(), Options(true, true)) == ["3,INBOX,4.4K,2.4K"]
    ensures Usage(InboxServer(), Options(true, false)) == ["3,INBOX,4500,2500"]
  {
    InboxTotals();
    InboxUsage(Options(false, true));
    InboxUsage(Options(true, true));
    InboxUsage(Options(true, false));
    InboxLineTexts();
  }

  /**
   * SELECT reports two messages and SEARCH returns 1 and 3; the program
   * fetches "1:3", which returns messages 1, 2 and 3.
   */
  function GappedServer(): Server {
    MailboxServer("Archive", 2, [1, 3], [1, 2, 3], [100, 200, 300])
  }

  lemma GappedTotals()
    ensures Sum([100, 200, 300]) == 600 && Max([100, 200, 300]) == 300
  {
  }

  /**
   * Message 2, which SEARCH did not return, is added into the total, and the
   * count stays SELECT's two although three sizes are added up.
   */
  lemma GappedSearchOverFetches()
    ensures Handled(GappedServer(), "Archive")
    ensures FolderSize(GappedServer(), "Archive") == Some(Stats(2, 600, 300))
  {
    MailboxFolderSize("Archive", 2, [1, 3], [1, 2, 3], [100, 200, 300]);
    GappedTotals();
  }
}
