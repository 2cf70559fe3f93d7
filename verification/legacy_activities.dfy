/**
 * The legacy PHP activity list of `www/actividades/index.php`: activities are JSON files in a
 * classroom folder and in a global folder; the page splits them into upcoming and past, sorts
 * each part, builds the search index, and its script filters by a search term and escapes text
 * for HTML. Directory listings, file contents and date parsing are parameters.
 */
module LegacyActivities {
  import opened Wrappers
  import opened Text
  import opened Tables
  import opened Sorting

  /**
   * A decoded activity file: the text fields of its JSON object (empty when the file did not
   * decode) and the `_global` tag.
   */
  datatype LegacyActivity = LegacyActivity(fields: map<string, string>, global: bool)

  /** A field as PHP reads it: a missing key reads as null, which converts to "". */
  function Field(a: LegacyActivity, key: string): string {
    if key in a.fields then a.fields[key] else ""
  }

  // ---------------------------------------------------------------------------------------
  // Reading a folder

  /** `pathinfo($file, PATHINFO_EXTENSION)`: the text after the last ".", or "" without one. */
  function Extension(name: string): (ext: string)
    ensures '.' !in ext
    ensures '.' !in name ==> ext == ""
    ensures '.' in name ==> HasSuffix(name, "." + ext)
  {
    if |name| == 0 || name[|name| - 1] == '.' then ""
    else
      var init, last := name[..|name| - 1], name[|name| - 1];
      assert name == init + [last];
      if '.' in init then
        var e := Extension(init);
        assert init[|init| - |e| - 1..] == "." + e;
        assert name[|name| - |e| - 2..] == init[|init| - |e| - 1..] + [last];
        assert name[|name| - |e| - 2..] == "." + (e + [last]);
        e + [last]
      else ""
  }

  /** A name that ends in "." and a dot-free extension has exactly that extension. */
  lemma {:induction false} ExtensionOfSuffix(name: string, ext: string)
    requires '.' !in ext && HasSuffix(name, "." + ext)
    ensures Extension(name) == ext
  {
    if |ext| > 0 {
      var init := name[..|name| - 1];
      var shorter := ext[..|ext| - 1];
      assert name[|name| - 1] == ext[|ext| - 1];
      assert init[|init| - |shorter| - 1..] == "." + shorter;
      assert '.' !in shorter by {
        forall i | 0 <= i < |shorter| ensures shorter[i] != '.' { assert shorter[i] == ext[i]; }
      }
      ExtensionOfSuffix(init, shorter);
      assert init[|init| - |shorter| - 1] == '.';
      assert ext == shorter + [ext[|ext| - 1]];
    }
  }

  /** The extension test of the folder reader is exactly "the name ends in .json". */
  lemma JsonExtension(name: string)
    ensures Extension(name) == "json" <==> HasSuffix(name, ".json")
  {
    if HasSuffix(name, ".json") {
      ExtensionOfSuffix(name, "json");
    }
  }

  /** What the folder reader keeps from a listing, in listing order: the ".json" files, each tagged. */
  function ActivitiesOf(files: seq<string>, decode: string -> Option<map<string, string>>, isGlobal: bool)
      : (r: seq<LegacyActivity>)
    ensures |r| <= |files|
    ensures forall i :: 0 <= i < |r| ==> r[i].global == isGlobal
  {
    if |files| == 0 then []
    else
      var init := ActivitiesOf(files[..|files| - 1], decode, isGlobal);
      var file := files[|files| - 1];
      if file != "." && file != ".." && Extension(file) == "json" then
        init + [LegacyActivity(decode(file).GetOr(map[]), isGlobal)]
      else init
  }

  /**
   * `get_activities_from_dir`: nothing for a missing folder; otherwise one activity per ".json"
   * file, in listing order, tagged with `_global`. A file that does not decode still yields an
   * entry, holding only its tag.
   */
  method GetActivitiesFromDir(listing: Option<seq<string>>, decode: string -> Option<map<string, string>>,
                              isGlobal: bool) returns (activities: seq<LegacyActivity>)
    ensures listing.None? ==> activities == []
    ensures listing.Some? ==> activities == ActivitiesOf(listing.value, decode, isGlobal)
  {
    activities := [];
    if listing.None? {
      return;
    }
    var files := listing.value;
    for i := 0 to |files|
      invariant activities == ActivitiesOf(files[..i], decode, isGlobal)
    {
      assert files[..i + 1][..i] == files[..i];
      var file := files[i];
      if file == "." || file == ".." {
        continue;
      }
      if Extension(file) == "json" {
        var activity := LegacyActivity(decode(file).GetOr(map[]), isGlobal);
        activities := activities + [activity];
      }
    }
    assert files[..|files|] == files;
  }

  /** A name with the ".json" ending. */
  predicate IsJsonName(f: string) {
    HasSuffix(f, ".json")
  }

  /** Every ".json" file of the listing yields an entry, whether or not it decodes. */
  lemma {:induction false} EveryJsonFileCounts(files: seq<string>, decode: string -> Option<map<string, string>>,
                                               isGlobal: bool)
    ensures |ActivitiesOf(files, decode, isGlobal)| == |Where(files, IsJsonName)|
  {
    if |files| > 0 {
      var init := files[..|files| - 1];
      var file := files[|files| - 1];
      EveryJsonFileCounts(init, decode, isGlobal);
      JsonExtension(file);
      assert file == "." || file == ".." ==> !IsJsonName(file);
      var kept := file != "." && file != ".." && Extension(file) == "json";
      assert kept == IsJsonName(file);
      assert |ActivitiesOf(files, decode, isGlobal)| == |ActivitiesOf(init, decode, isGlobal)| + if kept then 1 else 0;
      WhereStep(files, |files| - 1, IsJsonName);
      assert files[..|files|] == files;
    }
  }

  /** A file that does not decode becomes an entry holding only its tag. */
  lemma UndecodableFileYieldsEntry(file: string, decode: string -> Option<map<string, string>>, isGlobal: bool)
    requires HasSuffix(file, ".json") && decode(file).None?
    ensures ActivitiesOf([file], decode, isGlobal) == [LegacyActivity(map[], isGlobal)]
  {
    JsonExtension(file);
    assert [file][..0] == [];
  }

  // ---------------------------------------------------------------------------------------
  // Upcoming and past

  /** The start instant as the page parses it; `when` is `new DateTime` / `strtotime`. */
  function StartOf(a: LegacyActivity, when: string -> int): int {
    when(Field(a, "start"))
  }

  function Upcoming(all: seq<LegacyActivity>, today: int, when: string -> int): (r: seq<LegacyActivity>)
    ensures forall i :: 0 <= i < |r| ==> r[i] in all && StartOf(r[i], when) >= today
  {
    Where(all, (a: LegacyActivity) => StartOf(a, when) >= today)
  }

  function Past(all: seq<LegacyActivity>, today: int, when: string -> int): (r: seq<LegacyActivity>)
    ensures forall i :: 0 <= i < |r| ==> r[i] in all && StartOf(r[i], when) < today
  {
    Where(all, (a: LegacyActivity) => StartOf(a, when) < today)
  }

  /** Every activity lands in exactly one of the two parts: together they are the whole list. */
  lemma PartitionCovers(all: seq<LegacyActivity>, today: int, when: string -> int)
    ensures multiset(Upcoming(all, today, when)) + multiset(Past(all, today, when)) == multiset(all)
  {
    WherePartition(all, (a: LegacyActivity) => StartOf(a, when) >= today, (a: LegacyActivity) => StartOf(a, when) < today);
  }

  function EarlierFirst(when: string -> int): (LegacyActivity, LegacyActivity) -> bool {
    (a: LegacyActivity, b: LegacyActivity) => StartOf(a, when) <= StartOf(b, when)
  }

  function LaterFirst(when: string -> int): (LegacyActivity, LegacyActivity) -> bool {
    (a: LegacyActivity, b: LegacyActivity) => StartOf(a, when) >= StartOf(b, when)
  }

  lemma OrdersAreTotal(when: string -> int)
    ensures TotalPreorder(EarlierFirst(when)) && TotalPreorder(LaterFirst(when))
  {
  }

  /**
   * `$all_activities_sorted`: the upcoming activities by ascending start, then the past ones by
   * descending start (most recent first); nothing is lost or added.
   */
  function AllActivitiesSorted(all: seq<LegacyActivity>, today: int, when: string -> int): (r: seq<LegacyActivity>)
    ensures multiset(r) == multiset(all)
  {
    PartitionCovers(all, today, when);
    InsertionSort(Upcoming(all, today, when), EarlierFirst(when)) + InsertionSort(Past(all, today, when), LaterFirst(when))
  }

  /** The upcoming part once sorted: as long as before, all today or later, earliest first. */
  lemma SortedUpcoming(all: seq<LegacyActivity>, today: int, when: string -> int)
    ensures var s := InsertionSort(Upcoming(all, today, when), EarlierFirst(when));
      |s| == |Upcoming(all, today, when)| &&
      (forall i :: 0 <= i < |s| ==> StartOf(s[i], when) >= today) &&
      (forall i, j :: 0 <= i < j < |s| ==> StartOf(s[i], when) <= StartOf(s[j], when))
  {
    var part := Upcoming(all, today, when);
    var s := InsertionSort(part, EarlierFirst(when));
    OrdersAreTotal(when);
    InsertionSortSorted(part, EarlierFirst(when));
    assert |multiset(s)| == |multiset(part)|;
    forall i | 0 <= i < |s| ensures StartOf(s[i], when) >= today {
      assert s[i] in multiset(part);
    }
  }

  /** The past part once sorted: as long as before, all before today, most recent first. */
  lemma SortedPast(all: seq<LegacyActivity>, today: int, when: string -> int)
    ensures var s := InsertionSort(Past(all, today, when), LaterFirst(when));
      |s| == |Past(all, today, when)| &&
      (forall i :: 0 <= i < |s| ==> StartOf(s[i], when) < today) &&
      (forall i, j :: 0 <= i < j < |s| ==> StartOf(s[i], when) >= StartOf(s[j], when))
  {
    var part := Past(all, today, when);
    var s := InsertionSort(part, LaterFirst(when));
    OrdersAreTotal(when);
    InsertionSortSorted(part, LaterFirst(when));
    assert |multiset(s)| == |multiset(part)|;
    forall i | 0 <= i < |s| ensures StartOf(s[i], when) < today {
      assert s[i] in multiset(part);
    }
  }

  /** Putting an upcoming part, earliest first, before a past part, most recent first. */
  lemma ConcatenatedOrder(up: seq<LegacyActivity>, past: seq<LegacyActivity>, today: int, when: string -> int)
    requires forall i :: 0 <= i < |up| ==> StartOf(up[i], when) >= today
    requires forall i, j :: 0 <= i < j < |up| ==> StartOf(up[i], when) <= StartOf(up[j], when)
    requires forall i :: 0 <= i < |past| ==> StartOf(past[i], when) < today
    requires forall i, j :: 0 <= i < j < |past| ==> StartOf(past[i], when) >= StartOf(past[j], when)
    ensures var r := up + past; var n := |up|;
      (forall i :: 0 <= i < n ==> StartOf(r[i], when) >= today) &&
      (forall i :: n <= i < |r| ==> StartOf(r[i], when) < today) &&
      (forall i, j :: 0 <= i < j < n ==> StartOf(r[i], when) <= StartOf(r[j], when)) &&
      (forall i, j :: n <= i < j < |r| ==> StartOf(r[i], when) >= StartOf(r[j], when))
  {
    var r := up + past;
    var n := |up|;
    forall i, j | n <= i < j < |r| ensures StartOf(r[i], when) >= StartOf(r[j], when) {
      assert r[i] == past[i - n] && r[j] == past[j - n];
    }
  }

  /**
   * The page's order: the first |upcoming| activities start today or later, in ascending start
   * order; the rest started before today, most recent first.
   */
  lemma AllActivitiesOrder(all: seq<LegacyActivity>, today: int, when: string -> int)
    ensures var r := AllActivitiesSorted(all, today, when);
      var n := |Upcoming(all, today, when)|;
      n <= |r| &&
      (forall i :: 0 <= i < n ==> StartOf(r[i], when) >= today) &&
      (forall i :: n <= i < |r| ==> StartOf(r[i], when) < today) &&
      (forall i, j :: 0 <= i < j < n ==> StartOf(r[i], when) <= StartOf(r[j], when)) &&
      (forall i, j :: n <= i < j < |r| ==> StartOf(r[i], when) >= StartOf(r[j], when))
  {
    SortedUpcoming(all, today, when);
    SortedPast(all, today, when);
    var up := InsertionSort(Upcoming(all, today, when), EarlierFirst(when));
    var past := InsertionSort(Past(all, today, when), LaterFirst(when));
    ConcatenatedOrder(up, past, today, when);
  }

  /**
   * The page as far as its list: `new DateTime($activity['start'])` throws on a start it cannot
   * parse (`parses` says which texts it accepts), and the uncaught exception ends the page; with
   * every start parsed, the page holds `$all_activities_sorted`.
   */
  function ActivitiesPage(all: seq<LegacyActivity>, today: int, when: string -> int, parses: string -> bool)
      : (r: Option<seq<LegacyActivity>>)
    ensures r.None? <==> exists i :: 0 <= i < |all| && !parses(Field(all[i], "start"))
    ensures r.Some? ==> r.value == AllActivitiesSorted(all, today, when) && multiset(r.value) == multiset(all)
  {
    if exists i :: 0 <= i < |all| && !parses(Field(all[i], "start")) then None
    else Some(AllActivitiesSorted(all, today, when))
  }

  // ---------------------------------------------------------------------------------------
  // Search

  /** An entry of the search index: the six keys the page keeps, null where the file lacked one. */
  datatype SearchEntry = SearchEntry(id: Option<string>, title: Option<string>, description: Option<string>,
                                     start: Option<string>, end: Option<string>, global: bool)

  function Lookup(a: LegacyActivity, key: string): Option<string> {
    if key in a.fields then Some(a.fields[key]) else None
  }

  /** `$search_index`: one projection per activity, in list order. */
  method BuildSearchIndex(all: seq<LegacyActivity>) returns (index: seq<SearchEntry>)
    ensures |index| == |all|
    ensures forall i :: 0 <= i < |all| ==>
      index[i].id == Lookup(all[i], "id") && index[i].title == Lookup(all[i], "title") &&
      index[i].description == Lookup(all[i], "description") && index[i].start == Lookup(all[i], "start") &&
      index[i].end == Lookup(all[i], "end") && index[i].global == all[i].global
  {
    index := [];
    for i := 0 to |all|
      invariant |index| == i
      invariant forall k :: 0 <= k < i ==>
        index[k] == SearchEntry(Lookup(all[k], "id"), Lookup(all[k], "title"), Lookup(all[k], "description"),
                                Lookup(all[k], "start"), Lookup(all[k], "end"), all[k].global)
    {
      var a := all[i];
      index := index + [SearchEntry(Lookup(a, "id"), Lookup(a, "title"), Lookup(a, "description"),
                                    Lookup(a, "start"), Lookup(a, "end"), a.global)];
    }
  }

  /** The index records exactly what the file held under those keys: a present key is kept as it was. */
  lemma IndexKeepsFields(a: LegacyActivity)
    ensures "title" in a.fields ==> Lookup(a, "title") == Some(Field(a, "title"))
    ensures "title" !in a.fields ==> Lookup(a, "title").None? && Field(a, "title") == ""
  {
  }

  /** The search term (already lower-cased) is empty, or in the lower-cased title or description. */
  predicate MatchesSearch(a: LegacyActivity, term: string) {
    term == "" || ContainsSubstring(ToLower(Field(a, "title")), term) ||
    ContainsSubstring(ToLower(Field(a, "description")), term)
  }

  /**
   * The search callback throws a TypeError on an activity when the term is not empty and
   * `activity.title.toLowerCase()` runs on a missing or null title, or, the title not matching,
   * `activity.description.toLowerCase()` runs on a missing or null description.
   */
  predicate SearchThrows(a: LegacyActivity, term: string) {
    term != "" &&
    ("title" !in a.fields ||
     (!ContainsSubstring(ToLower(a.fields["title"]), term) && "description" !in a.fields))
  }

  /** What `performSearch` does: reload the page, stop on a TypeError (the display stays), or show a list. */
  datatype SearchOutcome = Reload | TypeError | Shown(activities: seq<LegacyActivity>)

  /**
   * `performSearch`: with no term and past activities excluded the page reloads; a callback that
   * throws stops the search; otherwise the activities that match, restricted to those starting
   * today or later unless past ones are included, in list order.
   */
  function PerformSearch(activities: seq<LegacyActivity>, term: string, includePrevious: bool, today: int,
                         when: string -> int): (r: SearchOutcome)
    ensures r == Reload <==> ToLower(term) == "" && !includePrevious
    ensures r == TypeError <==>
      (!(ToLower(term) == "" && !includePrevious) &&
       exists i :: 0 <= i < |activities| && SearchThrows(activities[i], ToLower(term)))
    ensures r.Shown? ==> forall i :: 0 <= i < |r.activities| ==>
      r.activities[i] in activities && MatchesSearch(r.activities[i], ToLower(term)) &&
      (includePrevious || StartOf(r.activities[i], when) >= today)
    ensures r.Shown? ==> forall i :: (0 <= i < |activities| &&
      MatchesSearch(activities[i], ToLower(term)) && (includePrevious || StartOf(activities[i], when) >= today)) ==>
      activities[i] in r.activities
  {
    var t := ToLower(term);
    if t == "" && !includePrevious then Reload
    else if exists i :: 0 <= i < |activities| && SearchThrows(activities[i], t) then TypeError
    else
      Shown(Where(activities, (a: LegacyActivity) => MatchesSearch(a, t) && (includePrevious || StartOf(a, when) >= today)))
  }

  /** An activity without a title stops any search with a non-empty term. */
  lemma MissingTitleStopsSearch(activities: seq<LegacyActivity>, k: nat, term: string, includePrevious: bool,
                                today: int, when: string -> int)
    requires k < |activities| && "title" !in activities[k].fields && ToLower(term) != ""
    ensures PerformSearch(activities, term, includePrevious, today, when) == TypeError
  {
    assert SearchThrows(activities[k], ToLower(term));
  }

  /** With no term and past activities included, the search shows the whole list in page order. */
  lemma EmptySearchShowsAll(activities: seq<LegacyActivity>, today: int, when: string -> int)
    ensures PerformSearch(activities, "", true, today, when) == Shown(activities)
  {
    WhereEverything(activities, (a: LegacyActivity) => MatchesSearch(a, ToLower("")) && (true || StartOf(a, when) >= today));
  }

  /** Without past activities, a search over the page's list only returns upcoming ones. */
  lemma SearchWithoutPastIsUpcoming(all: seq<LegacyActivity>, term: string, today: int, when: string -> int)
    requires ToLower(term) != ""
    ensures var r := PerformSearch(AllActivitiesSorted(all, today, when), term, false, today, when);
      r != Reload && (r.Shown? ==> forall i :: 0 <= i < |r.activities| ==> r.activities[i] in multiset(Upcoming(all, today, when)))
  {
    var sorted := AllActivitiesSorted(all, today, when);
    var outcome := PerformSearch(sorted, term, false, today, when);
    var r := if outcome.Shown? then outcome.activities else [];
    PartitionCovers(all, today, when);
    var past := Past(all, today, when);
    forall x | x in past ensures StartOf(x, when) < today {
      var k :| 0 <= k < |past| && past[k] == x;
    }
    forall i | 0 <= i < |r| ensures r[i] in multiset(Upcoming(all, today, when)) {
      assert r[i] in multiset(sorted);
      assert StartOf(r[i], when) >= today;
    }
  }

  // ---------------------------------------------------------------------------------------
  // HTML escaping

  /** `s` with every `c` replaced by `rep`: a global `replace` with a one-character pattern. */
  function ReplaceChar(s: string, c: char, rep: string): (r: string)
    ensures c !in rep ==> c !in r
    ensures c !in s ==> r == s
  {
    if |s| == 0 then []
    else
      assert c !in s ==> c !in s[1..];
      (if s[0] == c then rep else [s[0]]) + ReplaceChar(s[1..], c, rep)
  }

  lemma ReplaceCharCons(x: char, t: string, c: char, rep: string)
    ensures ReplaceChar([x] + t, c, rep) == (if x == c then rep else [x]) + ReplaceChar(t, c, rep)
  {
    var s := [x] + t;
    assert s[0] == x && s[1..] == t;
  }

  lemma {:induction false} ReplaceCharAppend(a: string, b: string, c: char, rep: string)
    ensures ReplaceChar(a + b, c, rep) == ReplaceChar(a, c, rep) + ReplaceChar(b, c, rep)
  {
    if |a| > 0 {
      var t := a[1..];
      assert a == [a[0]] + t;
      assert a + b == [a[0]] + (t + b);
      ReplaceCharCons(a[0], t, c, rep);
      ReplaceCharCons(a[0], t + b, c, rep);
      ReplaceCharAppend(t, b, c, rep);
    } else {
      assert a + b == b;
    }
  }

  /** The body of `escapeHtml`: the five replacements in the script's order, `&` first. */
  function ReplaceChain(s: string): string {
    ReplaceChar(ReplaceChar(ReplaceChar(ReplaceChar(ReplaceChar(s, '&', "&amp;"), '<', "&lt;"), '>', "&gt;"),
                            '"', "&quot;"), '\'', "&#039;")
  }

  /** The entity one character turns into. */
  function Entity(c: char): string {
    match c
    case '&' => "&amp;"
    case '<' => "&lt;"
    case '>' => "&gt;"
    case '"' => "&quot;"
    case '\'' => "&#039;"
    case _ => [c]
  }

  /** Escaping character by character: the reference the replacement chain is measured against. */
  function EscapeEach(s: string): string {
    if |s| == 0 then [] else Entity(s[0]) + EscapeEach(s[1..])
  }

  /** The replacement chain distributes over concatenation. */
  lemma ChainAppend(a: string, b: string)
    ensures ReplaceChain(a + b) == ReplaceChain(a) + ReplaceChain(b)
  {
    var a1, b1 := ReplaceChar(a, '&', "&amp;"), ReplaceChar(b, '&', "&amp;");
    ReplaceCharAppend(a, b, '&', "&amp;");
    var a2, b2 := ReplaceChar(a1, '<', "&lt;"), ReplaceChar(b1, '<', "&lt;");
    ReplaceCharAppend(a1, b1, '<', "&lt;");
    var a3, b3 := ReplaceChar(a2, '>', "&gt;"), ReplaceChar(b2, '>', "&gt;");
    ReplaceCharAppend(a2, b2, '>', "&gt;");
    var a4, b4 := ReplaceChar(a3, '"', "&quot;"), ReplaceChar(b3, '"', "&quot;");
    ReplaceCharAppend(a3, b3, '"', "&quot;");
    ReplaceCharAppend(a4, b4, '\'', "&#039;");
  }

  /** `ReplaceChar` on one character: the replacement when it is the pattern, the character otherwise. */
  lemma ReplaceOne(c: char, d: char, rep: string)
    ensures ReplaceChar([c], d, rep) == if c == d then rep else [c]
  {
    assert [c][1..] == [];
  }

  /** A character no later replacement touches passes through the rest of the chain unchanged. */
  lemma ChainTail(c: char)
    requires c != '<' && c != '>' && c != '"' && c != '\''
    ensures ReplaceChar(ReplaceChar(ReplaceChar(ReplaceChar([c], '<', "&lt;"), '>', "&gt;"), '"', "&quot;"), '\'', "&#039;") == [c]
  {
    ReplaceOne(c, '<', "&lt;");
    ReplaceOne(c, '>', "&gt;");
    ReplaceOne(c, '"', "&quot;");
    ReplaceOne(c, '\'', "&#039;");
  }

  /** One character goes through the chain to its entity: no entity holds a later pattern. */
  lemma ChainChar(c: char)
    ensures ReplaceChain([c]) == Entity(c)
  {
    ReplaceOne(c, '&', "&amp;");
    if c == '&' {
      EscapeAmpersand();
    } else if c == '<' {
      EscapeLess();
    } else if c == '>' {
      EscapeGreater();
    } else if c == '"' {
      EscapeQuote();
    } else if c == '\'' {
      EscapeApostrophe();
    } else {
      ChainTail(c);
    }
  }

  lemma EscapeAmpersand()
    ensures ReplaceChain("&") == "&amp;"
  {
    ReplaceOne('&', '&', "&amp;");
    var amp := "&amp;";
    assert '<' !in amp && '>' !in amp && '"' !in amp && '\'' !in amp;
    assert ReplaceChar(amp, '<', "&lt;") == amp;
    assert ReplaceChar(amp, '>', "&gt;") == amp;
    assert ReplaceChar(amp, '"', "&quot;") == amp;
  }

  lemma EscapeLess()
    ensures ReplaceChain("<") == "&lt;"
  {
    ReplaceOne('<', '&', "&amp;");
    ReplaceOne('<', '<', "&lt;");
    var lt := "&lt;";
    assert '>' !in lt && '"' !in lt && '\'' !in lt;
    assert ReplaceChar(lt, '>', "&gt;") == lt;
    assert ReplaceChar(lt, '"', "&quot;") == lt;
  }

  lemma EscapeGreater()
    ensures ReplaceChain(">") == "&gt;"
  {
    ReplaceOne('>', '&', "&amp;");
    ReplaceOne('>', '<', "&lt;");
    ReplaceOne('>', '>', "&gt;");
  }

  lemma EscapeQuote()
    ensures ReplaceChain("\"") == "&quot;"
  {
    ReplaceOne('"', '&', "&amp;");
    ReplaceOne('"', '<', "&lt;");
    ReplaceOne('"', '>', "&gt;");
    ReplaceOne('"', '"', "&quot;");
  }

  lemma EscapeApostrophe()
    ensures ReplaceChain("'") == "&#039;"
  {
    ReplaceOne('\'', '&', "&amp;");
    ReplaceOne('\'', '<', "&lt;");
    ReplaceOne('\'', '>', "&gt;");
    ReplaceOne('\'', '"', "&quot;");
    ReplaceOne('\'', '\'', "&#039;");
  }

  /** The replacement chain escapes each character on its own: `&` first means no entity is escaped twice. */
  lemma {:induction false} ChainIsPerCharacter(s: string)
    ensures ReplaceChain(s) == EscapeEach(s)
  {
    if |s| > 0 {
      ChainIsPerCharacter(s[1..]);
      assert s == [s[0]] + s[1..];
      ChainAppend([s[0]], s[1..]);
      ChainChar(s[0]);
    } else {
      assert ReplaceChain(s) == s;
    }
  }

  /** Text holding no raw `<`, `>`, `"` or `'`. */
  predicate Inert(e: string) {
    '<' !in e && '>' !in e && '"' !in e && '\'' !in e
  }

  lemma EntityInert(c: char)
    ensures Inert(Entity(c))
  {
    var e := Entity(c);
    if c == '<' || c == '>' || c == '"' || c == '\'' || c == '&' {
      assert forall k :: 0 <= k < |e| ==> e[k] == '&' || e[k] == ';' || 'a' <= e[k] <= 'z' || '0' <= e[k] <= '9' || e[k] == '#';
    }
  }

  lemma InertAppend(a: string, b: string)
    requires Inert(a) && Inert(b)
    ensures Inert(a + b)
  {
    assert forall x :: x in a + b ==> x in a || x in b;
  }

  lemma {:induction false} EscapeEachInert(s: string)
    ensures var e := EscapeEach(s); '<' !in e && '>' !in e && '"' !in e && '\'' !in e
  {
    if |s| > 0 {
      EscapeEachInert(s[1..]);
      EntityInert(s[0]);
      InertAppend(Entity(s[0]), EscapeEach(s[1..]));
    }
  }

  /**
   * `escapeHtml`: the replacement chain, which escapes each character on its own and so leaves no
   * raw `<`, `>`, `"` or `'` in the text.
   */
  function EscapeHtml(s: string): (r: string)
    ensures r == EscapeEach(s)
    ensures '<' !in r && '>' !in r && '"' !in r && '\'' !in r
  {
    ChainIsPerCharacter(s);
    EscapeEachInert(s);
    ReplaceChain(s)
  }

  /** Reading entities back, left to right: the inverse of escaping. */
  function Unescape(t: string): string
    decreases |t|
  {
    if |t| == 0 then []
    else if "&amp;" <= t then "&" + Unescape(t[5..])
    else if "&lt;" <= t then "<" + Unescape(t[4..])
    else if "&gt;" <= t then ">" + Unescape(t[4..])
    else if "&quot;" <= t then "\"" + Unescape(t[6..])
    else if "&#039;" <= t then "'" + Unescape(t[6..])
    else [t[0]] + Unescape(t[1..])
  }

  lemma UnescapeEntity(c: char, rest: string)
    ensures Unescape(Entity(c) + rest) == [c] + Unescape(rest)
  {
    var t := Entity(c) + rest;
    assert t[|Entity(c)|..] == rest;
    match c
    case '&' =>
      assert "&amp;" <= t;
    case '<' =>
      assert t[1] == 'l';
      assert "&lt;" <= t;
    case '>' =>
      assert t[1] == 'g';
      assert "&gt;" <= t;
    case '"' =>
      assert t[1] == 'q';
      assert "&quot;" <= t;
    case '\'' =>
      assert t[1] == '#';
      assert "&#039;" <= t;
    case _ =>
      assert t[0] == c;
  }

  /** Escaping loses nothing: unescaping gives the text back, so each `&` became exactly one `&amp;`. */
  lemma {:induction false} EscapeRoundTrip(s: string)
    ensures Unescape(EscapeHtml(s)) == s
  {
    EscapeEachRoundTrip(s);
  }

  lemma {:induction false} EscapeEachRoundTrip(s: string)
    ensures Unescape(EscapeEach(s)) == s
  {
    if |s| > 0 {
      EscapeEachRoundTrip(s[1..]);
      UnescapeEntity(s[0], EscapeEach(s[1..]));
      assert s == [s[0]] + s[1..];
    }
  }
}
