/**
 * Folder enumeration: `folders` in imapdu.py. Each LIST answer line has the
 * shape `(<flags>) "<delimiter>" <name>` (RFC 3501 section 7.2.2); the program
 * assumes the hierarchy delimiter is "/" and keeps the text after the first
 * ` "/" ` up to the next one, exactly as `entry.split(' "/" ')[1]` does.
 */
module Listing {
  import opened Wrappers
  import opened Strings
  import opened Imap

  /** The quoted "/" delimiter with the spaces around it. */
  const Delimiter: string := " \"/\" "

  /** A LIST line the program can cut: it holds the delimiter. */
  predicate IsListEntry(entry: string) {
    Contains(entry, Delimiter)
  }

  /** The second piece of `entry.split(' "/" ')`. */
  function FolderName(entry: string): (name: string)
    requires IsListEntry(entry)
    ensures !Contains(name, Delimiter)
    ensures var i := Find(entry, Delimiter).value;
            var after := entry[i + |Delimiter|..];
            name <= after && (name == after || Find(after, Delimiter) == Some(|name|))
  {
    var i := Find(entry, Delimiter).value;
    var after := entry[i + |Delimiter|..];
    assert Split(entry, Delimiter)[1..] == Split(after, Delimiter);
    Split(entry, Delimiter)[1]
  }

  /** A piece written before a delimiter is closed off by it when it has no quote. */
  lemma QuoteFreeIsSeparated(p: string)
    requires '"' !in p
    ensures Separated(p, Delimiter)
  {
    var s := p + Delimiter;
    assert OccursAt(s, Delimiter, |p|);
    forall j | 0 <= j < |p|
      ensures !OccursAt(s, Delimiter, j)
    {
      if j + 1 < |p| {
        assert s[j + 1] == p[j + 1];
      } else {
        assert s[j + 1] == ' ';
      }
      assert s[j..j + |Delimiter|][1] == s[j + 1];
    }
  }

  /**
   * On a LIST line `<flags> "/" <name>` whose flags hold no quote, the name is
   * recovered exactly, whether or not another delimiter follows it.
   */
  lemma FolderNameOfEntry(flags: string, name: string, tail: string)
    requires '"' !in flags
    requires Separated(name, Delimiter)
    ensures IsListEntry(flags + Delimiter + name)
    ensures FolderName(flags + Delimiter + name) == name
    ensures IsListEntry(flags + Delimiter + name + Delimiter + tail)
    ensures FolderName(flags + Delimiter + name + Delimiter + tail) == name
  {
    QuoteFreeIsSeparated(flags);
    SeparatedHasNoSeparator(name, Delimiter);
    FindAfterSeparated(flags, Delimiter, name);
    SplitAfterSeparated(flags, Delimiter, name);
    var e := flags + Delimiter + name + Delimiter + tail;
    assert e == flags + Delimiter + (name + Delimiter + tail);
    FindAfterSeparated(flags, Delimiter, name + Delimiter + tail);
    SplitAfterSeparated(flags, Delimiter, name + Delimiter + tail);
    SplitAfterSeparated(name, Delimiter, tail);
  }

  /** A LIST answer the program can process without an IndexError. */
  predicate ListHandled(list: Response) {
    Ok(list) ==> forall k :: 0 <= k < |list.data| ==> IsListEntry(list.data[k])
  }

  /**
   * `folders`: no folders when LIST fails; otherwise one name per answer
   * line, in the server's order.
   */
  function Folders(server: Server): (names: seq<string>)
    requires ListHandled(server(List))
    ensures !Ok(server(List)) ==> names == []
    ensures Ok(server(List)) ==> |names| == |server(List).data|
    ensures Ok(server(List)) ==>
              forall k :: 0 <= k < |names| ==> names[k] == FolderName(server(List).data[k])
  {
    var list := server(List);
    if !Ok(list) then []
    else seq(|list.data|, k requires 0 <= k < |list.data| => FolderName(list.data[k]))
  }
}
