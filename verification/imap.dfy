/**
 * The IMAP conversation as data. The client library and the network are
 * replaced by a `Server`: a function from the command the program issues to
 * the tagged status and untagged payload lines the library hands back.
 */
module Imap {
  import opened Wrappers
  import opened Decimal

  /**
   * The commands the program issues (RFC 3501 sections 6.3.8, 6.3.2, 6.4.4
   * and 6.4.5); the mailbox is opened read-only, so SELECT goes out as EXAMINE. SEARCH and FETCH act on the selected mailbox, so they carry
   * the mailbox that was selected when they were sent.
   */
  datatype Command =
    | List
    | Select(mailbox: string, readonly: bool)
    | Search(selected: string, criteria: string)
    | Fetch(selected: string, messageSet: string, items: string)

  /** The completion status ("OK", "NO", "BAD") and the payload lines. */
  datatype Response = Response(status: string, data: seq<string>)

  type Server = Command -> Response

  predicate Ok(r: Response) {
    r.status == "OK"
  }

  /** The text between the message number and the size in a FETCH line. */
  const SizeTag: string := " (RFC822.SIZE "

  /** A FETCH answer line for RFC822.SIZE (RFC 3501 section 7.4.2). */
  function SizeLine(msg: string, size: string): string {
    msg + SizeTag + size + ")"
  }

  /** The two digit runs the pattern `\d+ \(RFC822.SIZE (\d+)\)` captures. */
  datatype SizeFields = SizeFields(msg: string, size: string)

  /** Length of the longest run of digits at the start of `s`. */
  function DigitRun(s: string): (n: nat)
    ensures n <= |s|
    ensures forall i :: 0 <= i < n ==> IsDigit(s[i])
    ensures n < |s| ==> !IsDigit(s[n])
  {
    if |s| == 0 || !IsDigit(s[0]) then 0 else 1 + DigitRun(s[1..])
  }

  /**
   * Matches a FETCH line against the size pattern. Only the exact shape
   * `<digits> (RFC822.SIZE <digits>)` is accepted; whatever it accepts is
   * that shape with the returned fields.
   */
  function ParseSizeLine(line: string): (r: Option<SizeFields>)
    ensures r.Some? ==> IsDigits(r.value.msg) && IsDigits(r.value.size)
    ensures r.Some? ==> line == SizeLine(r.value.msg, r.value.size)
  {
    var k := DigitRun(line);
    var rest := line[k..];
    if k > 0 && |rest| > |SizeTag| + 1 && rest[..|SizeTag|] == SizeTag
       && rest[|rest| - 1] == ')' && IsDigits(rest[|SizeTag|..|rest| - 1])
    then
      var fields := SizeFields(line[..k], rest[|SizeTag|..|rest| - 1]);
      assert line == fields.msg + rest;
      assert rest == SizeTag + fields.size + ")";
      Some(fields)
    else None
  }

  /** Every well-formed size line is accepted, with exactly its own fields. */
  lemma ParseSizeLineOfSizeLine(msg: string, size: string)
    requires IsDigits(msg) && IsDigits(size)
    ensures ParseSizeLine(SizeLine(msg, size)) == Some(SizeFields(msg, size))
  {
    var line := SizeLine(msg, size);
    assert line[|msg|] == ' ';
    assert DigitRun(line) == |msg|;
    var rest := line[|msg|..];
    assert rest == SizeTag + size + ")";
    assert rest[..|SizeTag|] == SizeTag;
    assert rest[|SizeTag|..|rest| - 1] == size;
    assert rest[|rest| - 1] == ')';
    assert line[..|msg|] == msg;
  }

  /** A line the pattern matches. */
  predicate IsSizeLine(line: string) {
    ParseSizeLine(line).Some?
  }

  /** The size the pattern's group 1 captures, read with `int()`. */
  function SizeOf(line: string): (size: nat)
    requires IsSizeLine(line)
    ensures IsCanonical(ParseSizeLine(line).value.size) ==> Show(size) == ParseSizeLine(line).value.size
  {
    var field := ParseSizeLine(line).value.size;
    assert IsCanonical(field) ==> Show(Value(field)) == field by {
      if IsCanonical(field) {
        ShowOfValue(field);
      }
    }
    Value(field)
  }

  /** Extraction returns the size a well-formed line was written with. */
  lemma SizeOfSizeLine(msg: nat, size: nat)
    ensures IsSizeLine(SizeLine(Show(msg), Show(size)))
    ensures SizeOf(SizeLine(Show(msg), Show(size))) == size
  {
    ParseSizeLineOfSizeLine(Show(msg), Show(size));
    ValueOfShow(size);
  }
}
