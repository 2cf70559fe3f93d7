/**
 * `ReadLogs` of `pkg/logger/logger.go`: the JSON lines of the log file are decoded one by one,
 * filtered by level and day, cut to the last `limit`, and reversed in place so that the newest
 * comes first. The file's content is a parameter: the sequence of top-level JSON values the
 * decoder meets, each one an entry, a value that does not fit an entry, or a syntax error;
 * formatting a timestamp as a "2006-01-02" day is `dayOf`.
 */
module Logger {
  import opened Wrappers

  const LevelInfo: string := "INFO"
  const LevelWarn: string := "WARN"
  const LevelError: string := "ERROR"
  const LevelDebug: string := "DEBUG"

  /** A decoded log line; `source` is the `module` field, and `extra` is not modelled. */
  datatype LogEntry = LogEntry(timestamp: int, level: string, message: string, source: string, userId: string, ip: string)

  /**
   * One top-level JSON value of the log file, as `json.Decoder` meets it: an entry; well-formed
   * JSON that does not fit an entry (a wrong field type, a timestamp that is not RFC 3339), which
   * `Decode` consumes before it reports the error; or a syntax error, including a value the end
   * of the file cuts short, which `Decode` reports without consuming anything. `first` is the
   * value's first character.
   */
  datatype Value = Entry(entry: LogEntry) | Mistyped | Malformed(first: char)

  /** The logger was never initialised, the file did not open, or a negative limit made the slice panic. */
  datatype LogError = NotInitialized | OpenFailed | SliceOutOfRange

  /** The level filter (an empty level keeps all) and the day filter (no date keeps all). */
  predicate Matches(e: LogEntry, level: string, date: Option<int>, dayOf: int -> string) {
    (level == "" || e.level == level) && (date.None? || dayOf(e.timestamp) == dayOf(date.value))
  }

  /** The entries that decode and match, in file order. */
  function Kept(lines: seq<Value>, level: string, date: Option<int>, dayOf: int -> string): (r: seq<LogEntry>)
    ensures |r| <= |lines|
    ensures forall i :: 0 <= i < |r| ==> Matches(r[i], level, date, dayOf) && Entry(r[i]) in lines
  {
    if |lines| == 0 then []
    else
      var init := Kept(lines[..|lines| - 1], level, date, dayOf);
      var last := lines[|lines| - 1];
      if last.Entry? && Matches(last.entry, level, date, dayOf) then init + [last.entry] else init
  }

  /** Every decodable matching line is kept. */
  lemma {:induction false} KeptIsComplete(lines: seq<Value>, level: string, date: Option<int>,
                                          dayOf: int -> string)
    ensures forall i :: 0 <= i < |lines| && lines[i].Entry? && Matches(lines[i].entry, level, date, dayOf) ==>
      lines[i].entry in Kept(lines, level, date, dayOf)
  {
    if |lines| > 0 {
      var init := lines[..|lines| - 1];
      KeptIsComplete(init, level, date, dayOf);
      forall i | 0 <= i < |lines| - 1 ensures lines[i] == init[i] {
      }
    }
  }

  /** Reading one more line keeps it exactly when it decodes and matches. */
  lemma KeptStep(lines: seq<Value>, i: nat, level: string, date: Option<int>, dayOf: int -> string)
    requires i < |lines|
    ensures Kept(lines[..i + 1], level, date, dayOf) ==
      Kept(lines[..i], level, date, dayOf) +
      if lines[i].Entry? && Matches(lines[i].entry, level, date, dayOf) then [lines[i].entry] else []
  {
    assert lines[..i + 1][..i] == lines[..i];
  }

  /** With no level and no date, every line that decodes is kept, in order. */
  lemma {:induction false} NoFilterKeepsAll(lines: seq<Value>, dayOf: int -> string)
    requires forall i :: 0 <= i < |lines| ==> lines[i].Entry?
    ensures |Kept(lines, "", None, dayOf)| == |lines|
    ensures forall i :: 0 <= i < |lines| ==> Kept(lines, "", None, dayOf)[i] == lines[i].entry
  {
    if |lines| > 0 {
      var init, last := lines[..|lines| - 1], lines[|lines| - 1];
      forall i | 0 <= i < |init| ensures init[i] == lines[i] {
      }
      NoFilterKeepsAll(init, dayOf);
      assert Matches(last.entry, "", None, dayOf);
      var kept := Kept(lines, "", None, dayOf);
      assert kept == Kept(init, "", None, dayOf) + [last.entry];
      forall i | 0 <= i < |lines| ensures kept[i] == lines[i].entry {
        if i < |init| {
          assert kept[i] == Kept(init, "", None, dayOf)[i];
        }
      }
    }
  }

  /** Putting one more value in front keeps it, ahead of the rest, exactly when it decodes and matches. */
  lemma {:induction false} KeptCons(v: Value, rest: seq<Value>, level: string, date: Option<int>, dayOf: int -> string)
    ensures Kept([v] + rest, level, date, dayOf) ==
      (if v.Entry? && Matches(v.entry, level, date, dayOf) then [v.entry] else []) + Kept(rest, level, date, dayOf)
  {
    if |rest| > 0 {
      var init := rest[..|rest| - 1];
      KeptCons(v, init, level, date, dayOf);
      assert ([v] + rest)[..|rest|] == [v] + init;
    }
  }

  // ---------------------------------------------------------------------------------------
  // The decoding loop as written: `for decoder.More() { if decoder.Decode(&entry) != nil { continue } ... }`

  /** Where the first syntax error sits, or `|values|` when there is none. */
  function FirstMalformed(values: seq<Value>): (k: nat)
    ensures k <= |values|
    ensures forall i :: 0 <= i < k ==> !values[i].Malformed?
    ensures k < |values| ==> values[k].Malformed?
  {
    if |values| == 0 || values[0].Malformed? then 0 else 1 + FirstMalformed(values[1..])
  }

  /** `More` reports the end of the stream at a '}' or ']', the characters that close a JSON container. */
  predicate ClosesEarly(c: char) {
    c == '}' || c == ']'
  }

  /**
   * The loop as written. A syntax error is sticky in `json.Decoder` and leaves its read position
   * at the start of the bad value, so `More` keeps answering yes and `Decode` keeps failing: the
   * loop never ends (`None`). Only when the bad value starts with '}' or ']' does `More` answer no,
   * and the loop stops there with what it has. A mistyped value is consumed and skipped.
   */
  function DecodeLoop(values: seq<Value>, level: string, date: Option<int>, dayOf: int -> string): (r: Option<seq<LogEntry>>)
    ensures r.None? <==> FirstMalformed(values) < |values| && !ClosesEarly(values[FirstMalformed(values)].first)
    ensures r.Some? ==> r.value == Kept(values[..FirstMalformed(values)], level, date, dayOf)
  {
    if |values| == 0 then Some([])
    else
      match values[0]
      case Malformed(c) => if ClosesEarly(c) then Some([]) else None
      case Mistyped =>
        DecodeStep(values, level, date, dayOf);
        DecodeLoop(values[1..], level, date, dayOf)
      case Entry(e) =>
        DecodeStep(values, level, date, dayOf);
        match DecodeLoop(values[1..], level, date, dayOf)
        case None => None
        case Some(rest) => Some((if Matches(e, level, date, dayOf) then [e] else []) + rest)
  }

  /** Past a first value that is not a syntax error, the prefix before the first one grows by that value. */
  lemma DecodeStep(values: seq<Value>, level: string, date: Option<int>, dayOf: int -> string)
    requires |values| > 0 && !values[0].Malformed?
    ensures FirstMalformed(values) == 1 + FirstMalformed(values[1..])
    ensures Kept(values[..FirstMalformed(values)], level, date, dayOf) ==
      (if values[0].Entry? && Matches(values[0].entry, level, date, dayOf) then [values[0].entry] else []) +
      Kept(values[1..][..FirstMalformed(values[1..])], level, date, dayOf)
  {
    var k := FirstMalformed(values[1..]);
    assert values[..1 + k] == [values[0]] + values[1..][..k];
    KeptCons(values[0], values[1..][..k], level, date, dayOf);
  }

  /**
   * A value cut off by the end of the file, as a crash in the middle of a write leaves it: the
   * loop as written never returns, where skipping it would return the entries before it.
   */
  lemma TruncatedValueHangs(e: LogEntry, dayOf: int -> string)
    ensures DecodeLoop([Entry(e), Malformed('{')], "", None, dayOf).None?
    ensures Kept([Entry(e), Malformed('{')], "", None, dayOf) == [e]
  {
    assert FirstMalformed([Entry(e), Malformed('{')]) == 1;
    KeptCons(Entry(e), [Malformed('{')], "", None, dayOf);
    KeptCons(Malformed('{'), [], "", None, dayOf);
  }

  /** A stray ']' line ends the loop as written: the entries after it are never read. */
  lemma ClosingBracketHidesTheRest(e: LogEntry, dayOf: int -> string)
    ensures DecodeLoop([Malformed(']'), Entry(e)], "", None, dayOf) == Some([])
    ensures Kept([Malformed(']'), Entry(e)], "", None, dayOf) == [e]
  {
    assert FirstMalformed([Malformed(']'), Entry(e)]) == 0;
    KeptCons(Malformed(']'), [Entry(e)], "", None, dayOf);
    KeptCons(Entry(e), [], "", None, dayOf);
  }

  /** `entries[len(entries)-limit:]` when there are more than `limit`. */
  function LastN(s: seq<LogEntry>, limit: nat): (r: seq<LogEntry>)
    ensures |r| == if |s| > limit then limit else |s|
    ensures s == s[..|s| - |r|] + r
  {
    if |s| > limit then s[|s| - limit..] else s
  }

  /** `s` back to front. */
  function Reversed<T>(s: seq<T>): (r: seq<T>)
    ensures |r| == |s|
    ensures forall i :: 0 <= i < |s| ==> r[i] == s[|s| - 1 - i]
  {
    if |s| == 0 then [] else Reversed(s[1..]) + [s[0]]
  }

  /** Reversing twice gives back the sequence. */
  lemma ReversedTwice<T>(s: seq<T>)
    ensures Reversed(Reversed(s)) == s
  {
  }

  /** Reversal is a permutation. */
  lemma {:induction false} ReversedPermutes<T>(s: seq<T>)
    ensures multiset(Reversed(s)) == multiset(s)
  {
    if |s| > 0 {
      ReversedPermutes(s[1..]);
      assert Reversed(s) == Reversed(s[1..]) + [s[0]];
      assert s == [s[0]] + s[1..];
    }
  }

  /** The two-pointer swap loop: element `k` trades places with element `Length - 1 - k`. */
  method ReverseInPlace<T>(a: array<T>)
    modifies a
    ensures a[..] == Reversed(old(a[..]))
  {
    var i, j := 0, a.Length - 1;
    while i < j
      invariant 0 <= i <= a.Length && i + j == a.Length - 1
      invariant forall k :: 0 <= k < i ==> a[k] == old(a[a.Length - 1 - k])
      invariant forall k :: j < k < a.Length ==> a[k] == old(a[a.Length - 1 - k])
      invariant forall k :: i <= k <= j ==> a[k] == old(a[k])
    {
      a[i], a[j] := a[j], a[i];
      i, j := i + 1, j - 1;
    }
  }

  /**
   * `ReadLogs`: the matching entries, the last `limit` of them, newest first. A logger never
   * initialised and a file that does not open are errors; a negative limit makes the slice
   * expression go out of range.
   */
  method ReadLogs(initialized: bool, file: Option<seq<Value>>, limit: int, level: string,
                  date: Option<int>, dayOf: int -> string) returns (r: Result<seq<LogEntry>, LogError>)
    ensures !initialized ==> r == Failure(NotInitialized)
    ensures initialized && file.None? ==> r == Failure(OpenFailed)
    ensures initialized && file.Some? && limit < 0 ==> r == Failure(SliceOutOfRange)
    ensures initialized && file.Some? && limit >= 0 ==>
      r == Success(Reversed(LastN(Kept(file.value, level, date, dayOf), limit)))
  {
    if !initialized {
      return Failure(NotInitialized);
    }
    if file.None? {
      return Failure(OpenFailed);
    }
    var lines := file.value;
    var entries: seq<LogEntry> := [];
    for i := 0 to |lines|
      invariant entries == Kept(lines[..i], level, date, dayOf)
    {
      KeptStep(lines, i, level, date, dayOf);
      var line := lines[i];
      if !line.Entry? {
        continue;
      }
      if level != "" && line.entry.level != level {
        continue;
      }
      if date.Some? && dayOf(line.entry.timestamp) != dayOf(date.value) {
        continue;
      }
      entries := entries + [line.entry];
    }
    assert lines[..|lines|] == lines;
    if |entries| > limit {
      if limit < 0 {
        return Failure(SliceOutOfRange);
      }
      entries := entries[|entries| - limit..];
    }
    assert entries == LastN(Kept(lines, level, date, dayOf), limit);
    var newest := NewestFirstCopy(entries);
    r := Success(newest);
  }

  /** The entries copied into a slice and reversed there by `ReverseInPlace`. */
  method NewestFirstCopy(entries: seq<LogEntry>) returns (r: seq<LogEntry>)
    ensures r == Reversed(entries)
  {
    var buffer := new LogEntry[|entries|](k requires 0 <= k < |entries| => entries[k]);
    assert buffer[..] == entries;
    ReverseInPlace(buffer);
    r := buffer[..];
  }

  /**
   * What `ReadLogs` returns from the matching entries `kept`: their last `limit`, back to front,
   * so entry `i` is the `i`-th match from the end and no more than `limit` are returned.
   */
  lemma NewestFirst(kept: seq<LogEntry>, limit: nat)
    ensures var shown := Reversed(LastN(kept, limit));
      |shown| <= limit &&
      (|kept| <= limit ==> |shown| == |kept|) &&
      forall i :: 0 <= i < |shown| ==> shown[i] == kept[|kept| - 1 - i]
  {
    var last := LastN(kept, limit);
    var shown := Reversed(last);
    assert last == kept[|kept| - |last|..];
    forall i | 0 <= i < |shown| ensures shown[i] == kept[|kept| - 1 - i] {
      assert shown[i] == last[|last| - 1 - i];
    }
  }
}
