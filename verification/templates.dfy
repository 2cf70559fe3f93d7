/**
 * The functions `internal/handlers/common.go` registers for the HTML templates, and the data
 * every page starts from (`getCommonData`). A template value of unknown Go type is a
 * `TemplateValue`; a function that panics answers `None` (the template then fails to render).
 */
module Templates {
  import opened Wrappers
  import opened Text
  import opened Accounts
  import opened Sessions
  import opened Common
  import Utils

  /** The dynamic values a template passes to `call` and `contains`. */
  datatype TemplateValue =
    | StringValue(s: string)
    | StringList(items: seq<string>)
    | StringPredicate(f: string -> bool)
    | IntValue(i: int)

  /**
   * `call`: applies a `func(string) bool` to a first string argument; any other shape of call
   * yields false.
   */
  function Call(fn: TemplateValue, args: seq<TemplateValue>): (r: bool)
    ensures r <==> fn.StringPredicate? && |args| > 0 && args[0].StringValue? && fn.f(args[0].s)
  {
    if fn.StringPredicate? && |args| > 0 && args[0].StringValue? then fn.f(args[0].s) else false
  }

  /** `contains`: membership in a string list, substring of a string, false for anything else. */
  function Contains(collection: TemplateValue, item: string): (r: bool)
    ensures collection.StringList? ==> (r <==> item in collection.items)
    ensures collection.StringValue? ==> (r <==> ContainsSubstring(collection.s, item))
    ensures !collection.StringList? && !collection.StringValue? ==> !r
  {
    match collection
    case StringList(items) => Utils.Contains(items, item)
    case StringValue(s) => ContainsSubstring(s, item)
    case _ => false
  }

  /** `min`: one of the two arguments, no larger than either. */
  function Min(a: int, b: int): (r: int)
    ensures r <= a && r <= b && (r == a || r == b)
  {
    if a < b then a else b
  }

  /** `max`: one of the two arguments, no smaller than either. */
  function Max(a: int, b: int): (r: int)
    ensures r >= a && r >= b && (r == a || r == b)
  {
    if a > b then a else b
  }

  /**
   * `seq`: start, start + 1, ..., end. The slice is made with capacity end - start + 1, so an
   * end below start - 1 panics; end = start - 1 gives the empty list.
   */
  method Seq(start: int, end: int) returns (r: Option<seq<int>>)
    ensures r.None? <==> end < start - 1
    ensures r.Some? ==> |r.value| == end - start + 1
    ensures r.Some? ==> forall k :: 0 <= k < |r.value| ==> r.value[k] == start + k
  {
    if end - start + 1 < 0 {
      return None;
    }
    var result: seq<int> := [];
    var i := start;
    while i <= end
      invariant start <= i <= end + 1
      invariant |result| == i - start
      invariant forall k :: 0 <= k < |result| ==> result[k] == start + k
      decreases end - i
    {
      result := result + [i];
      i := i + 1;
    }
    r := Some(result);
  }

  /**
   * `slice`: "" from a start at or past the end, otherwise up to `length` characters from
   * `start`, cut at the end of the text. A negative start or length inside the text panics.
   */
  function Slice(s: string, start: int, length: int): (r: Option<string>)
    ensures start >= |s| ==> r == Some("")
    ensures 0 <= start < |s| && length >= 0 ==> r.Some? && r.value <= s[start..] &&
                                                 |r.value| == Min(length, |s| - start)
    ensures start < |s| && (start < 0 || length < 0) ==> r.None?
  {
    if start >= |s| then Some("")
    else
      var end := if start + length > |s| then |s| else start + length;
      if start < 0 || end < start then None else Some(s[start..end])
  }

  /** What every page starts from; the user-dependent entries exist only for a signed-in user. */
  datatype CommonData = CommonData(
    flash: string,
    pageTitle: string,
    user: Option<User>,
    session: Option<map<string, string>>,
    hasAccess: Option<string -> bool>)

  const DefaultPageTitle: string := "Figar√≥"

  /**
   * `getCommonData`: the `flash` query and the default title always; with a signed-in user,
   * also the user, the `centro` and `aula` cookies that are present, and a permission check
   * bound to that user.
   */
  function GetCommonData(flash: string, ctx: Option<Principal>, cookies: map<string, string>): (d: CommonData)
    ensures d.flash == flash && d.pageTitle == DefaultPageTitle
    ensures d.user.None? <==> ctx.None?
    ensures d.session.None? <==> ctx.None?
    ensures d.hasAccess.None? <==> ctx.None?
    ensures ctx.Some? ==> d.user == Some(ctx.value.user)
    ensures ctx.Some? ==>
      forall k :: k in d.session.value <==> ((k == "Centro" && "centro" in cookies) || (k == "Aula" && "aula" in cookies))
    ensures ctx.Some? && "centro" in cookies ==> d.session.value["Centro"] == cookies["centro"]
    ensures ctx.Some? && "aula" in cookies ==> d.session.value["Aula"] == cookies["aula"]
    ensures ctx.Some? ==> forall p :: d.hasAccess.value(p) == HasAccess(Some(ctx.value.user), p)
  {
    match ctx
    case None => CommonData(flash, DefaultPageTitle, None, None, None)
    case Some(principal) =>
      var withCentro: map<string, string> := if "centro" in cookies then map["Centro" := cookies["centro"]] else map[];
      var session := if "aula" in cookies then withCentro["Aula" := cookies["aula"]] else withCentro;
      CommonData(flash, DefaultPageTitle, Some(principal.user), Some(session),
                 Some((p: string) => HasAccess(Some(principal.user), p)))
  }
}
