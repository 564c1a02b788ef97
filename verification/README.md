# imapdu in Dafny

imapdu is a command-line "disk usage" report for an IMAP account. It lists
the account's folders. For each folder it prints the message count, the total
size and the size of the largest message. Sizes are either raw byte counts or
human-readable values such as `4.4K`, and each line is either a sentence or a
CSV record.

This project models the pure core of `imapdu.py`:

- `folders`: LIST answer lines become folder names.
- `folder_size`: the SELECT, SEARCH ALL and FETCH RFC822.SIZE chain, with the
  `lo:hi` message set and the sum and maximum of the sizes.
- `to_size`: choosing a unit by repeated division by 1024, then writing the
  value with one decimal.
- The per-folder loop of `main`: it skips folders without statistics and
  formats one line for every other folder, in LIST order.

The IMAP client is replaced by a `Server`: a pure function from the command
the program sends to the status and payload lines it gets back. SEARCH and
FETCH act on the selected mailbox, so those commands carry the name of the
folder that was selected when they were sent.

Modules, one per file:

| file | module | part of `imapdu.py` |
|---|---|---|
| wrappers.dfy | Wrappers | `None` results |
| decimal.dfy | Decimal | `int()` on digit runs, `"%d"` and `str()` on integers |
| strings.dfy | Strings | `str.split(sep)`, `str.split()`, `sep.join` |
| imap.dfy | Imap | commands, responses, the FETCH size line and its pattern |
| listing.dfy | Listing | `folders` |
| sizing.dfy | Sizing | `folder_size` |
| units.dfy | Units | `to_size` |
| report.dfy | Report | the report loop of `main` |
| scenarios.dfy | Scenarios | a general one-folder account and two concrete mailboxes evaluated by the whole model |

Two facts about the code that are easy to misread:

- A folder of 500, 1500 and 2500 bytes takes up 4500 bytes, which `to_size`
  writes as `4.4K`, because 4500 / 1024 is about 4.39.
  `Scenarios.InboxReport` states the resulting lines.
- The message count is the EXISTS count SELECT reports (`nmsg`), not the
  number of SEARCH results, and the two can differ. `Sizing.FolderSize`
  states this.

The `lo:hi` FETCH range is kept as written. When the SEARCH numbers have gaps,
the FETCH also returns sizes of messages that SEARCH did not return, and these
are added to the total. `Scenarios.GappedSearchOverFetches` shows a case:
SEARCH returns messages 1 and 3, so the program fetches `1:3`. The total then
includes message 2, and the count stays at SELECT's 2 while three sizes are
added up.

## Model

| member | source | states |
|---|---|---|
| `Strings.Split` | imapdu.py:33 | `str.split(sep)` gives at least one piece, and exactly one iff the separator does not occur. Joining the pieces with the separator gives back the text. No piece contains the separator. The first piece ends at the first occurrence, and every piece but the last ends exactly where the next separator starts, so even an overlapping separator is cut where `str.split` cuts it. |
| `Strings.SplitJoin` | imapdu.py:33 | Splitting undoes joining whenever every piece ends exactly where the separator after it starts. |
| `Strings.Words` | imapdu.py:51 | `str.split()` yields only non-empty tokens that contain no whitespace, and it yields none iff the text is all whitespace. |
| `Strings.WordsAreNonEmptyCuts` | imapdu.py:51 | `str.split()` equals cutting the text at every whitespace character and dropping the empty pieces, so the tokens are the maximal whitespace-free runs, in order. |
| `Strings.WordsOfSpaced` | imapdu.py:51 | Words with any whitespace before, after and between them read back unchanged and in order, provided there is some whitespace between consecutive words. |
| `Strings.WordsOfJoin` | imapdu.py:51 | Whitespace-free tokens written with single spaces between them are read back unchanged and in order. |
| `Decimal.Show` | imapdu.py:53 | `"%d"` and `str()` write a natural number as a canonical digit run: non-empty, all digits, no leading zero unless it is `0`. |
| `Decimal.ValueBounds` | imapdu.py:45 | `int()` of a k-digit run is below 10^k, and at least 10^(k-1) when the run has no leading zero. |
| `Decimal.ValueOfShow` | imapdu.py:53 | Reading back the `"%d"` text of a number with `int()` gives the number. |
| `Decimal.ShowOfValue` | imapdu.py:45 | A canonical digit run read with `int()` and written with `"%d"` comes back unchanged. |
| `Imap.ParseSizeLine` | imapdu.py:59-60 | The size pattern accepts a line only if it is `<digits> (RFC822.SIZE <digits>)` with the returned fields. |
| `Imap.ParseSizeLineOfSizeLine` | imapdu.py:59-60 | Every line of that shape is accepted, and the fields returned are its own two digit runs. |
| `Imap.SizeOf` | imapdu.py:60 | The size extracted from a matching line is `int()` of its second digit run. When that run is canonical, writing the size back gives the run. |
| `Imap.SizeOfSizeLine` | imapdu.py:59-60 | On a line rendered as `<n> (RFC822.SIZE <size>)`, extraction returns `size`. |
| `Listing.FolderName` | imapdu.py:33 | The folder name is the text after the first ` "/" `, up to the next one or to the end. It never contains the delimiter. |
| `Listing.FolderNameOfEntry` | imapdu.py:33 | On a LIST line `<flags> "/" <name>` whose flags contain no quote, the name is recovered exactly, whether or not another delimiter follows it. |
| `Listing.Folders` | imapdu.py:27-33 | A LIST status other than OK gives no folders. Otherwise there is one name per answer line, in the same order. |
| `Sizing.Sort` | imapdu.py:52 | `msg_ids.sort()` yields an ascending permutation of the numbers. |
| `Sizing.SumBounds` | imapdu.py:62 | Every size is at most `sum(sizes)`, and the sum is 0 iff every size is 0. |
| `Sizing.Max` | imapdu.py:62 | `max` returns one of the sizes, and no size exceeds it. |
| `Sizing.MaxAtMostSum` | imapdu.py:60-62 | The largest size is at most the total. |
| `Sizing.SortEnds` | imapdu.py:52-53 | After sorting, `msg_ids[0]` is the minimum and `msg_ids[-1]` is the maximum. |
| `Sizing.MessageSet` | imapdu.py:51-53 | The FETCH message set is `"lo:hi"`, where lo is the smallest and hi the largest SEARCH number. |
| `Sizing.MessageSetIgnoresOrder` | imapdu.py:51-53 | The message set is the same for any order in which the server lists the numbers. |
| `Sizing.SearchIds` | imapdu.py:51 | There is one number per SEARCH token, in order. A canonical token is read as the number whose `"%d"` text it is. |
| `Sizing.Sizes` | imapdu.py:59-60 | There is one size per FETCH line, in order, each the size extracted from that line. |
| `Sizing.SearchIdsOfSearchText` | imapdu.py:51 | A SEARCH payload written for a list of numbers is read back as exactly those numbers. |
| `Sizing.SizesOfFetchLines` | imapdu.py:59-60 | FETCH lines written for some sizes all match the pattern, and they are read back as exactly those sizes, in order. |
| `Sizing.FolderSize` | imapdu.py:36-62 | The result is present iff SELECT succeeds, SELECT reports a positive count, SEARCH succeeds and FETCH succeeds. Any failed step, or an empty folder, gives no result. The count is SELECT's EXISTS count. The total is the sum of the fetched sizes. The largest is one of them, bounds all of them and is at most the total. |
| `Sizing.FolderSizeOfAnswers` | imapdu.py:41-62 | When SELECT reports a positive count, SEARCH lists some numbers and the FETCH of their range returns size lines, the statistics are SELECT's count and the sum and maximum of the fetched sizes. |
| `Sizing.FolderSizeIgnoresSearchOrder` | imapdu.py:47-62 | A SEARCH answer listing the same numbers in another order gives the same statistics. |
| `Units.ScaleFrom` | imapdu.py:67-71 | The division loop stops with a value below 1024 unless it has reached the T suffix. |
| `Units.ScaleFromSpec` | imapdu.py:67-71 | Wherever the division loop is entered, it stops at the unit chosen by the 1024^k thresholds, with the count divided by 1024^k. |
| `Units.Scale` | imapdu.py:65-71 | The suffix is B iff the count is below 1024, K iff it is in [1024, 1024^2), M and G likewise, and T iff it is at least 1024^4. The magnitude times 1024^k is the count. It is below 1024 for every suffix except T, and at least 1 for every suffix except B. |
| `Units.RoundHalfEven` | imapdu.py:69 | The result is within one half of its argument, and an exact tie goes to the even neighbour. |
| `Units.FixedOne` | imapdu.py:69 | `"%3.1f"` text reads back as a canonical whole part, a point and one digit. It denotes the nearest number of tenths. |
| `Units.ToSize` | imapdu.py:65-71 | The text ends with the suffix the thresholds choose. The part before the suffix denotes the magnitude rounded to the nearest tenth. |
| `Units.ToSizeOfBytes` | imapdu.py:67-69 | A count below 1024 is written as itself followed by `.0B`. |
| `Units.ToSizeOfPower` | imapdu.py:65-71 | Exactly 1024^k is written as `1.0` followed by the k-th suffix, for every k up to 4. |
| `Units.ToSizeByteBoundaries` | imapdu.py:67-69 | 0 is written as `0.0B` and 1023 as `1023.0B`. |
| `Units.ToSizeUnitBoundaries` | imapdu.py:65-71 | 1024 is written as `1.0K`, 1024^2 as `1.0M`, 1024^3 as `1.0G` and 1024^4 as `1.0T`. |
| `Units.ToSizeExampleFolder` | imapdu.py:65-71 | 4500 is written as `4.4K` and 2500 as `2.4K`. |
| `Units.ToSizeHasNoComma` | imapdu.py:104 | A human-readable size contains no comma, so it stays a single CSV field. |
| `Report.Fields` | imapdu.py:112-116 | The count and the folder are substituted unchanged. Human-readable mode applies `to_size` to the size and to the biggest, and raw mode writes both as integers. |
| `Report.Line` | imapdu.py:103-116 | In CSV mode the line is the four fields joined with commas, whatever the folder name holds. Otherwise it is the sentence `<count> Messages in <folder> taking up <size> biggest message <biggest>`. |
| `Report.Lines` | imapdu.py:108-116 | The loop prints at most one line per folder it goes through. |
| `Report.CsvLineReadsBack` | imapdu.py:104-116 | A CSV line for a folder name without a comma splits on commas into exactly count, folder, size and biggest. The count reads back as the count, and in raw mode both sizes read back as the numbers. |
| `Report.LinesFollowEnumeration` | imapdu.py:108-116 | There is one line per folder that has statistics and none for the others. The j-th line belongs to the j-th such folder in enumeration order. |
| `Report.LinesAppend` | imapdu.py:108-116 | The report of a longer enumeration is the report of its first part followed by that of the rest. |
| `Report.Results` | imapdu.py:108-109 | `folder_size` is evaluated for every enumerated folder, in LIST order. |
| `Report.Usage` | imapdu.py:103-116 | A failed LIST prints nothing, and there are never more lines than folders. |
| `Report.UsageReportsAvailableFolders` | imapdu.py:108-116 | The printed lines are those of the available folders, in LIST order, and every available folder gets its line. |
| `Report.SingleFolderUsage` | imapdu.py:108-116 | An account whose LIST names one folder with statistics prints exactly that folder's line. |
| `Scenarios.MailboxFolders` | imapdu.py:27-33 | A LIST answer `(\HasNoChildren) "/" <name>` for a name without quotes gives exactly the folder `name`. |
| `Scenarios.MailboxFolderSize` | imapdu.py:36-62 | A one-folder account whose FETCH of the SEARCH range returns some sizes yields SELECT's count with the sum and maximum of those sizes. |
| `Scenarios.MailboxUsage` | imapdu.py:103-116 | The whole program on such an account prints the one line for that folder and its statistics, in every output mode. |
| `Scenarios.InboxReport` | imapdu.py:103-116 | An INBOX with messages of 500, 1500 and 2500 bytes prints `3 Messages in INBOX taking up 4.4K biggest message 2.4K`. In CSV mode it prints `3,INBOX,4.4K,2.4K`, and `3,INBOX,4500,2500` without human-readable sizes. |
| `Scenarios.GappedSearchOverFetches` | imapdu.py:45-62 | SELECT reports 2 messages and SEARCH returns 1 and 3. The statistics count 2 messages but add up the three sizes fetched for `1:3`. |

## Left out

- Command-line parsing, the user default, the password prompt and port selection (imapdu.py:75-96): these are terminal and CLI concerns.
- Connecting, TLS, LOGIN, CLOSE and LOGOUT (imapdu.py:98-101, 107, 118-119): the network and the client library are replaced by the `Server` function.
- Printing (imapdu.py:116): `Report.Usage` returns the lines instead of writing them.
- The server is a fixed function of the command. Mailbox changes made by others during the run are not modelled.
- `Listing.Folders`: requires every LIST line to contain ` "/" `, because the source raises IndexError otherwise (for example, with a server whose delimiter is not "/").
- `Sizing.FolderSize`: requires answers in the forms the model reads. SELECT's first payload line must be a plain digit run. Python 2's `int()` also accepts a sign and surrounding whitespace, as in `-2`, `+3`, ` 3` or `3\n`; those answers are excluded (see `Decimal.Value`). On `-2` the source returns None, and on ` 3` it goes on to SEARCH. Every SEARCH token must likewise be a plain digit run. A successful SEARCH in a non-empty folder must return at least one number, because `msg_ids[0]` raises otherwise. A successful FETCH must return at least one line, because `max([])` raises. Every FETCH line must be exactly `<digits> (RFC822.SIZE <digits>)` (see `Imap.ParseSizeLine`), which is stricter than a `re.search` match.
- `Decimal.Value`: models `int()` only on plain ASCII digit runs. A leading sign and surrounding whitespace, which `int()` accepts, are not modelled.
- `Report.Lines`: its own contract only bounds the number of lines. Which lines are printed, and in what order, is stated by `Report.LinesFollowEnumeration`.
- `Imap.ParseSizeLine`: accepts exactly `<digits> (RFC822.SIZE <digits>)`. Unanchored `re.search` matches inside longer lines, and `.` matching any character, are not modelled.
- `Units.Scale`: uses exact reals. The source converts the count to a binary float, which is exact only below 2^53 bytes, so the model can differ for larger counts.
- Payloads are modelled as text strings, following Python 2. Under Python 3, imaplib returns bytes and `bytes.split(' "/" ')` would raise, which is not modelled.
