/** The source map: a path rewrite from the container's paths to the host's,
    read from the JSON file that `SDB_SOURCE_MAP` names. */
module SourceMaps {
  import opened Wrappers
  import opened PhpStrings

  /** The decoded JSON object of a source map file: its members, in file order. */
  type PathMap = seq<(string, string)>

  /** `str_replace($search, $replace, $subject)` with arrays: every pair in turn on the
      result of the pairs before it; a search string without a replacement is
      replaced by `''`. */
  function ReplacePairs(s: string, search: seq<string>, replace: seq<string>): string
    decreases |search|
  {
    if search == [] then s
    else ReplacePairs(ReplaceAll(s, search[0], if replace == [] then "" else replace[0]),
      search[1..], if replace == [] then [] else replace[1..])
  }

  /** The last pair is applied to what the earlier pairs produced. */
  lemma {:induction false} ReplacePairsAppend(s: string, search: seq<string>, replace: seq<string>, from: string, to: string)
    requires |search| == |replace|
    ensures ReplacePairs(s, search + [from], replace + [to]) == ReplaceAll(ReplacePairs(s, search, replace), from, to)
    decreases |search|
  {
    if search == [] {
      assert ([from] + [])[1..] == [];
    } else {
      assert (search + [from])[1..] == search[1..] + [from];
      assert (replace + [to])[1..] == replace[1..] + [to];
      ReplacePairsAppend(ReplaceAll(s, search[0], replace[0]), search[1..], replace[1..], from, to);
    }
  }

  /** A path that mentions no search string is left alone by a single pair. */
  lemma ReplacePairsSingleAbsent(s: string, from: string, to: string)
    requires !Contains(s, from)
    ensures ReplacePairs(s, [from], [to]) == s
  {
    ReplaceAllAbsent(s, from, to);
  }

  /** The rewrite of a path whose prefix is a search string: two chained pairs move
      `/app` to `/src` and then `/src` to `/home`, so the second pair sees the first
      pair's output. */
  lemma ReplacePairsChain()
    ensures ReplacePairs("/app", ["/app", "/src"], ["/src", "/home"]) == "/home"
  {
    assert ReplaceAll("", "/app", "/src") == "";
    assert ReplaceAll("/app", "/app", "/src") == "/src";
    assert ReplaceAll("", "/src", "/home") == "";
    assert ReplaceAll("/src", "/src", "/home") == "/home";
  }

  /** The foreach over the decoded map that builds the pairwise search and replace
      lists. */
  method BuildSearchReplace(pathMap: PathMap) returns (search: seq<string>, replace: seq<string>)
    ensures |search| == |pathMap| && |replace| == |pathMap|
    ensures forall i :: 0 <= i < |pathMap| ==> search[i] == pathMap[i].0 && replace[i] == pathMap[i].1
  {
    search := [];
    replace := [];
    var i := 0;
    while i < |pathMap|
      invariant 0 <= i <= |pathMap|
      invariant |search| == i && |replace| == i
      invariant forall k :: 0 <= k < i ==> search[k] == pathMap[k].0 && replace[k] == pathMap[k].1
    {
      search := search + [pathMap[i].0];
      replace := replace + [pathMap[i].1];
      i := i + 1;
    }
  }

  /** A source-map callback: the rewrite the constructor installs, or any function a
      caller of `setSourceMapHandler` supplies. */
  datatype SourceMapHandler = PathRewrite(search: seq<string>, replace: seq<string>) | Custom(f: string -> string)

  function Apply(h: SourceMapHandler, sourcePosition: string): string {
    match h
    case PathRewrite(search, replace) => ReplacePairs(sourcePosition, search, replace)
    case Custom(f) => f(sourcePosition)
  }

  /** `$sourceMapHandler` and the trait methods around it. */
  class SourceMap {
    var handler: Option<SourceMapHandler>

    constructor ()
      ensures handler == None
    {
      handler := None;
    }

    /** `__constructDebuggerSourceMap`: when the environment names an existing file,
        its decoded map becomes a rewrite handler, but only a non-empty map; a file
        that does not decode raises `JsonException`. `decoded` answers `file_exists` and
        `json_decode(file_get_contents(...))`, `None` for invalid JSON. */
    method ConstructDebuggerSourceMap(pathMapEnv: Option<string>, decoded: map<string, Option<PathMap>>) returns (r: Outcome)
      modifies this
      ensures pathMapEnv.None? || pathMapEnv.value !in decoded ==> r == Done && handler == old(handler)
      ensures pathMapEnv.Some? && pathMapEnv.value in decoded && decoded[pathMapEnv.value].None? ==>
        r.Raised? && handler == old(handler)
      ensures pathMapEnv.Some? && pathMapEnv.value in decoded && decoded[pathMapEnv.value].Some? ==>
        var pathMap := decoded[pathMapEnv.value].value;
        r == Done &&
        (|pathMap| == 0 ==> handler == old(handler)) &&
        (|pathMap| > 0 ==>
          handler.Some? && handler.value.PathRewrite? &&
          handler.value.search == seq(|pathMap|, i requires 0 <= i < |pathMap| => pathMap[i].0) &&
          handler.value.replace == seq(|pathMap|, i requires 0 <= i < |pathMap| => pathMap[i].1))
    {
      if pathMapEnv.None? || pathMapEnv.value !in decoded {
        return Done;
      }
      var content := decoded[pathMapEnv.value];
      if content.None? {
        return Raised(JsonException("Syntax error"));
      }
      var pathMap := content.value;
      var search, replace := BuildSearchReplace(pathMap);
      if |pathMap| > 0 {
        SetSourceMapHandler(Some(PathRewrite(search, replace)));
      }
      r := Done;
    }

    method SetSourceMapHandler(h: Option<SourceMapHandler>)
      modifies this
      ensures handler == h
    {
      handler := h;
    }

    /** `callSourceMapHandler`: the handler's rewrite, or the position itself. */
    function CallSourceMapHandler(sourcePosition: string): (r: string)
      reads this
      ensures handler.None? ==> r == sourcePosition
      ensures handler.Some? ==> r == Apply(handler.value, sourcePosition)
    {
      match handler
      case None => sourcePosition
      case Some(h) => Apply(h, sourcePosition)
    }
  }
}
