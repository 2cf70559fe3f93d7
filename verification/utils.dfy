/**
 * `pkg/utils`: the ISO-to-Spanish date rewrite, slice membership, and the helpers that turn
 * empty strings into NULL pointers and back. A Go pointer is an `Option`.
 */
module Utils {
  import opened Wrappers
  import opened Text

  /** The "-"-separated fields of the text before the first "T". */
  function DateFields(isoDate: string): (parts: seq<string>)
    ensures |parts| >= 1 && forall i :: 0 <= i < |parts| ==> '-' !in parts[i]
  {
    Split(Split(isoDate, 'T')[0], '-')
  }

  /**
   * `IsoToSpanish`: exactly three fields come back as "third/second/first"; any other count
   * returns the input unchanged. No field is checked to be a number.
   */
  function IsoToSpanish(isoDate: string): (r: string)
    ensures |DateFields(isoDate)| == 3 ==>
      var p := DateFields(isoDate); r == p[2] + "/" + p[1] + "/" + p[0]
    ensures |DateFields(isoDate)| != 3 ==> r == isoDate
    ensures r != isoDate ==> '-' !in r
  {
    var parts := DateFields(isoDate);
    if |parts| != 3 then isoDate
    else
      var r := parts[2] + "/" + parts[1] + "/" + parts[0];
      assert forall i :: 0 <= i < |r| ==> r[i] != '-' by {
        forall i | 0 <= i < |r| ensures r[i] != '-' {
          if i < |parts[2]| {
            assert r[i] == parts[2][i];
          } else if i == |parts[2]| || i == |parts[2]| + 1 + |parts[1]| {
          } else if i < |parts[2]| + 1 + |parts[1]| {
            assert r[i] == parts[1][i - |parts[2]| - 1];
          } else {
            assert r[i] == parts[0][i - |parts[2]| - 2 - |parts[1]|];
          }
        }
      }
      r
  }

  /** A rewritten date has no "-" left, so rewriting it again changes nothing. */
  lemma {:induction false} IsoToSpanishIdempotent(isoDate: string)
    ensures IsoToSpanish(IsoToSpanish(isoDate)) == IsoToSpanish(isoDate)
  {
    var r := IsoToSpanish(isoDate);
    if r != isoDate {
      var datePart := Split(r, 'T')[0];
      FirstPart(r, 'T');
      assert '-' !in datePart by {
        forall i | 0 <= i < |datePart| ensures datePart[i] != '-' {
          assert datePart[i] == r[i];
        }
      }
      SplitWithoutSeparator(datePart, '-');
    }
  }

  /**
   * Any three "-"-free, "T"-free fields, optionally followed by "T" and a time, are reordered:
   * "a-b-c" becomes "c/b/a", digits or not.
   */
  lemma IsoToSpanishReorders(a: string, b: string, c: string, time: string)
    requires '-' !in a && '-' !in b && '-' !in c
    requires 'T' !in a && 'T' !in b && 'T' !in c
    ensures IsoToSpanish(a + "-" + b + "-" + c) == c + "/" + b + "/" + a
    ensures IsoToSpanish(a + "-" + b + "-" + c + "T" + time) == c + "/" + b + "/" + a
  {
    var date := a + "-" + b + "-" + c;
    assert 'T' !in date by {
      forall i | 0 <= i < |date| ensures date[i] != 'T' {
        if i < |a| { assert date[i] == a[i]; }
        else if i == |a| || i == |a| + 1 + |b| { }
        else if i < |a| + 1 + |b| { assert date[i] == b[i - |a| - 1]; }
        else { assert date[i] == c[i - |a| - 2 - |b|]; }
      }
    }
    SplitWithoutSeparator(date, 'T');
    SplitAppend(date, time, 'T');
    assert date + "T" + time == date + ['T'] + time;
    SplitThree(a, b, c, '-');
    assert a + "-" + b + "-" + c == a + ['-'] + b + ['-'] + c;
  }

  /** `Contains`: some element equals the item. */
  function Contains(slice: seq<string>, item: string): (r: bool)
    ensures r <==> exists i :: 0 <= i < |slice| && slice[i] == item
  {
    if |slice| == 0 then false
    else if slice[0] == item then true
    else
      var rest := Contains(slice[1..], item);
      assert rest ==> exists i :: 0 <= i < |slice| && slice[i] == item by {
        if rest {
          var i :| 0 <= i < |slice[1..]| && slice[1..][i] == item;
          assert slice[i + 1] == item;
        }
      }
      rest
  }

  /** `StringPtr`: the empty string becomes NULL. */
  function StringPtr(s: string): (p: Option<string>)
    ensures p.None? <==> s == ""
    ensures p.Some? ==> p.value == s
  {
    if s == "" then None else Some(s)
  }

  /** `StringValue`: NULL reads as the empty string. */
  function StringValue(p: Option<string>): (s: string)
    ensures p.None? ==> s == ""
    ensures p.Some? ==> s == p.value
  {
    match p
    case None => ""
    case Some(v) => v
  }

  /** `IntPtr`: a pointer to a copy of `i`, never nil, whatever `i` is (0 included). */
  function IntPtr(i: int): (p: Option<int>)
    ensures p.Some? && p.value == i
  {
    Some(i)
  }

  /** `IntValue`: NULL reads as 0. */
  function IntValue(p: Option<int>): (i: int)
    ensures p.None? ==> i == 0
    ensures p.Some? ==> i == p.value
  {
    match p
    case None => 0
    case Some(v) => v
  }

  /**
   * The pointer helpers round-trip values, and pointers other than one to "": the empty string
   * and NULL are the same thing to them.
   */
  lemma PointerRoundTrips(s: string, i: int, p: Option<string>)
    ensures StringValue(StringPtr(s)) == s
    ensures IntValue(IntPtr(i)) == i
    ensures p != Some("") ==> StringPtr(StringValue(p)) == p
    ensures StringPtr(StringValue(Some(""))) == None
  {
  }
}
