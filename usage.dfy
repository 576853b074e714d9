// Usage text of a command (getUsageString, shard.ts lines 90-100): each usage
// entry `syntax - description` is shown as `` `prefix syntax` - description ``.

module Usage {
  import opened Wrappers
  import opened Text

  /** A command's `usage` field: one string, or an array of strings. */
  datatype Usage = Single(text: string) | Lines(texts: seq<string>)

  const Separator: string := " - "

  /** Element 1 of `u.split(' - ')`, or the text a template literal gives
      JavaScript's `undefined` when the entry has no separator. */
  function Description(parts: seq<string>): string {
    if |parts| > 1 then parts[1] else "undefined"
  }

  /** One entry, formatted as `` `${prefix} ${u[0]}` - ${u[1]} ``. */
  function UsageLine(prefix: string, entry: string): string {
    var parts := Split(entry, Separator);
    "`" + prefix + " " + parts[0] + "` - " + Description(parts)
  }

  function UsageLines(prefix: string, entries: seq<string>): (r: seq<string>)
    ensures |r| == |entries|
    ensures forall i :: 0 <= i < |entries| ==> r[i] == UsageLine(prefix, entries[i])
  {
    if entries == [] then [] else [UsageLine(prefix, entries[0])] + UsageLines(prefix, entries[1..])
  }

  /** `getUsageString(prefix, usage)`: an array usage gives one line per
      entry, in order, joined with newlines. */
  function UsageString(prefix: string, usage: Usage): string {
    match usage
    case Single(entry) => UsageLine(prefix, entry)
    case Lines(entries) => Join(UsageLines(prefix, entries), "\n")
  }

  /** An entry `syntax - description` is shown as
      `` `prefix syntax` - description `` when the separator occurs only once,
      at the end of the syntax. */
  lemma UsageLineOfPair(prefix: string, syntax: string, description: string)
    requires Free(syntax + " -", Separator)
    requires Free(description, Separator)
    ensures UsageLine(prefix, syntax + Separator + description)
            == "`" + prefix + " " + syntax + "` - " + description
  {
    var entry := syntax + Separator + description;
    assert OccursAt(entry, Separator, |syntax|) by {
      assert entry[|syntax|..|syntax| + 3] == Separator;
    }
    forall k: nat | k < |syntax|
      ensures !OccursAt(entry, Separator, k)
    {
      assert !OccursAt(syntax + " -", Separator, k);
    }
    assert IndexOf(entry, Separator) == Some(|syntax|);
    assert entry[..|syntax|] == syntax;
    assert entry[|syntax| + 3..] == description;
    assert Split(description, Separator) == [description];
    assert Split(entry, Separator) == [syntax] + Split(description, Separator);
  }

  /** An entry without the separator shows `undefined` as its description. */
  lemma UsageLineWithoutSeparator(prefix: string, entry: string)
    requires Free(entry, Separator)
    ensures UsageLine(prefix, entry) == "`" + prefix + " " + entry + "` - undefined"
  {
    assert Split(entry, Separator) == [entry];
  }

  /** An array usage with one entry reads as that entry given as a string. */
  lemma SingleEntryArray(prefix: string, entry: string)
    ensures UsageString(prefix, Lines([entry])) == UsageString(prefix, Single(entry))
  {
    assert UsageLines(prefix, [entry]) == [UsageLine(prefix, entry)];
  }

  /** One more entry adds a newline and that entry's line at the end. */
  lemma UsageStringAppend(prefix: string, entries: seq<string>, entry: string)
    requires entries != []
    ensures UsageString(prefix, Lines(entries + [entry]))
            == UsageString(prefix, Lines(entries)) + "\n" + UsageLine(prefix, entry)
  {
    assert UsageLines(prefix, entries + [entry]) == UsageLines(prefix, entries) + [UsageLine(prefix, entry)];
    JoinAppend(UsageLines(prefix, entries), UsageLine(prefix, entry), "\n");
  }
}
