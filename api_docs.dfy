/** The documentation generator of `apiDocs.js`: the route table and model
    registry of `APIDocumentationGenerator`, the grouping of routes by tag,
    the status texts, and how a route's path, parameters and query become a
    Postman request URL. Markdown and JSON rendering, file output and the
    response examples are not part of this model. */
module ApiDocs {
  import opened Common

  /** A path parameter or query parameter as a route declares it. */
  datatype Param = Param(name: string, description: string, required: bool)

  /** A JSON object as its entries in order, each value already rendered. */
  type Json = seq<(string, string)>

  datatype Route = Route(httpMethod: string, path: string, description: string, auth: bool,
                         params: seq<Param>, query: seq<Param>, body: Json, responses: Json,
                         examples: Json, tags: seq<string>)

  /** The options of `addRoute`; a missing one is `None`. */
  datatype Options = Options(auth: Option<bool>, params: Option<seq<Param>>, query: Option<seq<Param>>,
                             body: Option<Json>, responses: Option<Json>, examples: Option<Json>,
                             tags: Option<seq<string>>)

  function OrElse<T>(o: Option<T>, d: T): (r: T)
    ensures o.None? ==> r == d
    ensures o.Some? ==> r == o.value
  {
    if o.Some? then o.value else d
  }

  /** The route `addRoute` records: the method upper-cased, and each missing
      option at its default (no auth, no params, query or tags, and empty
      body, responses and examples). */
  function NewRoute(httpMethod: string, path: string, description: string, options: Options): (r: Route)
    ensures r.httpMethod == ToUpper(httpMethod) && r.path == path && r.description == description
    ensures r.auth == (options.auth == Some(true))
    ensures r.params == OrElse(options.params, []) && r.query == OrElse(options.query, [])
    ensures r.tags == OrElse(options.tags, [])
    ensures r.body == OrElse(options.body, []) && r.responses == OrElse(options.responses, [])
    ensures r.examples == OrElse(options.examples, [])
  {
    Route(ToUpper(httpMethod), path, description, options.auth == Some(true),
          OrElse(options.params, []), OrElse(options.query, []), OrElse(options.body, []),
          OrElse(options.responses, []), OrElse(options.examples, []), OrElse(options.tags, []))
  }

  // ---------------------------------------------------------------------
  // Grouping by tag
  // ---------------------------------------------------------------------

  const DefaultTag := "Default"

  /** The group of a route: its first tag, or "Default" without tags. */
  function TagOf(r: Route): (t: string)
    ensures r.tags != [] ==> t == r.tags[0]
    ensures r.tags == [] ==> t == DefaultTag
  {
    if |r.tags| > 0 then r.tags[0] else DefaultTag
  }

  function InGroup(tag: string): Route -> bool
  {
    (r: Route) => TagOf(r) == tag
  }

  ghost predicate Distinct(xs: seq<string>)
  {
    forall i, j :: 0 <= i < j < |xs| ==> xs[i] != xs[j]
  }

  /** The number of routes over the listed groups. */
  ghost function Total(tags: seq<string>, groups: map<string, seq<Route>>): nat
    requires forall t :: t in tags ==> t in groups
  {
    if tags == [] then 0 else Total(tags[..|tags| - 1], groups) + |groups[tags[|tags| - 1]]|
  }

  /** A group that is not listed does not count. */
  lemma {:induction false} TotalFrame(tags: seq<string>, groups: map<string, seq<Route>>, t: string, g: seq<Route>)
    requires forall u :: u in tags ==> u in groups
    requires t !in tags
    ensures Total(tags, groups[t := g]) == Total(tags, groups)
  {
    if tags != [] {
      TotalFrame(tags[..|tags| - 1], groups, t, g);
    }
  }

  /** One more route in a listed group counts once. */
  lemma {:induction false} TotalBump(tags: seq<string>, groups: map<string, seq<Route>>, t: string, r: Route)
    requires forall u :: u in tags ==> u in groups
    requires Distinct(tags) && t in tags
    ensures Total(tags, groups[t := groups[t] + [r]]) == Total(tags, groups) + 1
  {
    var init := tags[..|tags| - 1];
    var last := tags[|tags| - 1];
    assert forall i, j :: 0 <= i < j < |init| ==> init[i] == tags[i] && init[j] == tags[j];
    if last == t {
      assert t !in init;
      TotalFrame(init, groups, t, groups[t] + [r]);
    } else {
      assert t in init;
      TotalBump(init, groups, t, r);
    }
  }

  /** The listed groups are exactly the groups held. */
  ghost predicate Listed(tags: seq<string>, grouped: map<string, seq<Route>>)
  {
    forall t :: t in grouped <==> t in tags
  }

  /** The listed groups are exactly the groups of the routes. */
  ghost predicate TagsSeen(routes: seq<Route>, tags: seq<string>)
  {
    forall t :: t in tags <==> exists k :: 0 <= k < |routes| && TagOf(routes[k]) == t
  }

  /** The routes of one group, in table order, taken from the end. */
  ghost function GroupOf(routes: seq<Route>, tag: string): seq<Route>
  {
    if routes == [] then []
    else
      var last := routes[|routes| - 1];
      GroupOf(routes[..|routes| - 1], tag) + (if TagOf(last) == tag then [last] else [])
  }

  /** Taken from the end or filtered from the start, a group is the same. */
  lemma {:induction false} GroupOfIsFilter(routes: seq<Route>, tag: string)
    ensures GroupOf(routes, tag) == Filter(routes, InGroup(tag))
    decreases |routes|
  {
    if routes != [] {
      var init := routes[..|routes| - 1];
      GroupOfIsFilter(init, tag);
      FilterOneMore(init, routes[|routes| - 1], tag);
      assert routes == init + [routes[|routes| - 1]];
    }
  }

  /** Each group holds exactly its routes, in table order. */
  ghost predicate GroupsMatch(routes: seq<Route>, grouped: map<string, seq<Route>>)
  {
    forall t :: t in grouped ==> grouped[t] == GroupOf(routes, t)
  }

  /** The groups of a prefix of the route table: listed once each, each
      holding exactly its routes, and together every route of the prefix. */
  ghost predicate Grouped(prefix: seq<Route>, tags: seq<string>, grouped: map<string, seq<Route>>)
  {
    Listed(tags, grouped) && TagsSeen(prefix, tags) && Distinct(tags) && GroupsMatch(prefix, grouped)
    && Total(tags, grouped) == |prefix|
  }

  /** One more route joins the filter of its own group only. */
  lemma FilterOneMore(prefix: seq<Route>, r: Route, t: string)
    ensures Filter(prefix + [r], InGroup(t)) == Filter(prefix, InGroup(t)) + (if TagOf(r) == t then [r] else [])
  {
    FilterAppend(prefix, [r], InGroup(t));
    assert Filter([r], InGroup(t)) == (if TagOf(r) == t then [r] else []) by {
      assert [r][1..] == [];
    }
  }

  /** The groups of a route table seen so far, and of one more route whose
      group has appeared already. */
  lemma {:induction false} JoinGroup(prefix: seq<Route>, tags: seq<string>, grouped: map<string, seq<Route>>, r: Route)
    requires Grouped(prefix, tags, grouped) && TagOf(r) in grouped
    ensures Grouped(prefix + [r], tags, grouped[TagOf(r) := grouped[TagOf(r)] + [r]])
  {
    var tag := TagOf(r);
    var next := prefix + [r];
    var g := grouped[tag := grouped[tag] + [r]];
    assert GroupsMatch(next, g) by {
      assert next[..|prefix|] == prefix;
    }
    assert TagsSeen(next, tags) by {
      SeenInLonger(prefix, r, tags, tags);
    }
    assert Total(tags, g) == |next| by {
      TotalBump(tags, grouped, tag, r);
    }
  }

  /** The tags of a prefix, with the tag of one more route added if new,
      are the tags of the longer prefix. */
  lemma SeenInLonger(prefix: seq<Route>, r: Route, tags: seq<string>, longer: seq<string>)
    requires TagsSeen(prefix, tags)
    requires forall t :: t in longer <==> t in tags || t == TagOf(r)
    ensures TagsSeen(prefix + [r], longer)
  {
    var next := prefix + [r];
    forall t
      ensures t in longer <==> exists k :: 0 <= k < |next| && TagOf(next[k]) == t
    {
      if t in tags {
        var k :| 0 <= k < |prefix| && TagOf(prefix[k]) == t;
        assert next[k] == prefix[k];
      }
      if t == TagOf(r) {
        assert next[|prefix|] == r;
      }
      if exists k :: 0 <= k < |next| && TagOf(next[k]) == t {
        var k :| 0 <= k < |next| && TagOf(next[k]) == t;
        if k < |prefix| {
          assert next[k] == prefix[k];
        }
      }
    }
  }

  /** The same, for a route that opens a new group, listed last. */
  lemma {:induction false} OpenGroup(prefix: seq<Route>, tags: seq<string>, grouped: map<string, seq<Route>>, r: Route)
    requires Grouped(prefix, tags, grouped) && TagOf(r) !in grouped
    ensures Grouped(prefix + [r], tags + [TagOf(r)], grouped[TagOf(r) := [r]])
  {
    var tag := TagOf(r);
    var next := prefix + [r];
    var ts := tags + [tag];
    var g := grouped[tag := [r]];
    assert GroupOf(prefix, tag) == [] by {
      forall k | 0 <= k < |prefix|
        ensures TagOf(prefix[k]) != tag
      {
        assert TagOf(prefix[k]) in tags;
      }
      NoneInGroup(prefix, tag);
    }
    assert GroupsMatch(next, g) by {
      assert next[..|prefix|] == prefix;
    }
    assert TagsSeen(next, ts) by {
      SeenInLonger(prefix, r, tags, ts);
    }
    assert Distinct(ts) by {
      forall i, j | 0 <= i < j < |ts|
        ensures ts[i] != ts[j]
      {
        if j == |tags| {
          assert ts[i] == tags[i];
        } else {
          assert ts[i] == tags[i] && ts[j] == tags[j];
        }
      }
    }
    assert Total(ts, g) == |next| by {
      TotalFrame(tags, grouped, tag, [r]);
      assert ts[..|tags|] == tags;
    }
  }

  lemma TakeOneMore<T>(s: seq<T>, i: nat)
    requires i < |s|
    ensures s[..i + 1] == s[..i] + [s[i]]
  {
  }

  lemma JoinGroupAt(routes: seq<Route>, i: nat, tags: seq<string>, grouped: map<string, seq<Route>>)
    requires i < |routes| && Grouped(routes[..i], tags, grouped) && TagOf(routes[i]) in grouped
    ensures Grouped(routes[..i + 1], tags, grouped[TagOf(routes[i]) := grouped[TagOf(routes[i])] + [routes[i]]])
  {
    TakeOneMore(routes, i);
    JoinGroup(routes[..i], tags, grouped, routes[i]);
  }

  lemma OpenGroupAt(routes: seq<Route>, i: nat, tags: seq<string>, grouped: map<string, seq<Route>>)
    requires i < |routes| && Grouped(routes[..i], tags, grouped) && TagOf(routes[i]) !in grouped
    ensures Grouped(routes[..i + 1], tags + [TagOf(routes[i])], grouped[TagOf(routes[i]) := [routes[i]]])
  {
    TakeOneMore(routes, i);
    OpenGroup(routes[..i], tags, grouped, routes[i]);
  }

  /** Route `k` is the first route of group `t`. */
  predicate FirstRoute(routes: seq<Route>, t: string, k: int)
  {
    0 <= k < |routes| && TagOf(routes[k]) == t && forall m :: 0 <= m < k ==> TagOf(routes[m]) != t
  }

  lemma FirstRouteUnique(routes: seq<Route>, t: string, a: int, b: int)
    requires FirstRoute(routes, t, a) && FirstRoute(routes, t, b)
    ensures a == b
  {
  }

  /** The groups are listed in the order of their first routes. */
  ghost predicate InFirstRouteOrder(routes: seq<Route>, tags: seq<string>)
  {
    forall i, j, a, b :: 0 <= i < j < |tags| && FirstRoute(routes, tags[i], a) && FirstRoute(routes, tags[j], b) ==> a < b
  }

  /** A route whose group is not among the tags of the routes before it is
      that group's first route. */
  lemma OpensAt(routes: seq<Route>, i: nat, tags: seq<string>)
    requires i < |routes| && TagsSeen(routes[..i], tags) && TagOf(routes[i]) !in tags
    ensures FirstRoute(routes, TagOf(routes[i]), i)
  {
    forall m | 0 <= m < i ensures TagOf(routes[m]) != TagOf(routes[i]) {
      assert routes[..i][m] == routes[m];
    }
  }

  /** `firsts` holds, in increasing order, the positions before `i` of the
      first routes of the listed groups. */
  ghost predicate FirstsBefore(routes: seq<Route>, tags: seq<string>, firsts: seq<int>, i: int)
  {
    |firsts| == |tags|
    && (forall k :: 0 <= k < |tags| ==> FirstRoute(routes, tags[k], firsts[k]) && firsts[k] < i)
    && (forall a, b :: 0 <= a < b < |firsts| ==> firsts[a] < firsts[b])
  }

  /** A route that opens a new group adds its position last. */
  lemma FirstsOpen(routes: seq<Route>, tags: seq<string>, firsts: seq<int>, i: nat)
    requires i < |routes| && FirstsBefore(routes, tags, firsts, i)
    requires TagsSeen(routes[..i], tags) && TagOf(routes[i]) !in tags
    ensures FirstsBefore(routes, tags + [TagOf(routes[i])], firsts + [i], i + 1)
  {
    OpensAt(routes, i, tags);
    var ts, fs := tags + [TagOf(routes[i])], firsts + [i];
    forall k | 0 <= k < |ts| ensures FirstRoute(routes, ts[k], fs[k]) && fs[k] < i + 1 {
      if k < |tags| { assert ts[k] == tags[k] && fs[k] == firsts[k]; }
    }
  }

  /** Positions of first routes that increase along the tags give the order. */
  lemma OrderFromFirsts(routes: seq<Route>, tags: seq<string>, firsts: seq<int>)
    requires FirstsBefore(routes, tags, firsts, |routes|)
    ensures InFirstRouteOrder(routes, tags)
  {
    forall i, j, a, b | 0 <= i < j < |tags| && FirstRoute(routes, tags[i], a) && FirstRoute(routes, tags[j], b)
      ensures a < b
    {
      FirstRouteUnique(routes, tags[i], a, firsts[i]);
      FirstRouteUnique(routes, tags[j], b, firsts[j]);
    }
  }

  lemma {:induction false} NoneInGroup(routes: seq<Route>, tag: string)
    requires forall k :: 0 <= k < |routes| ==> TagOf(routes[k]) != tag
    ensures GroupOf(routes, tag) == []
    decreases |routes|
  {
    if routes != [] {
      NoneInGroup(routes[..|routes| - 1], tag);
    }
  }

  /** The keys every plain object inherits from `Object.prototype`. */
  const PrototypeKeys: set<string> := {"constructor", "__proto__", "__defineGetter__", "__defineSetter__",
                                       "__lookupGetter__", "__lookupSetter__", "hasOwnProperty", "isPrototypeOf",
                                       "propertyIsEnumerable", "toLocaleString", "toString", "valueOf"}

  /** A route whose group name is an inherited key of the grouping object. */
  predicate Inherited(r: Route)
  {
    TagOf(r) in PrototypeKeys
  }

  ghost predicate NoneInherited(routes: seq<Route>, n: nat)
  {
    forall k :: 0 <= k < n && k < |routes| ==> !Inherited(routes[k])
  }

  /** Some route's group name is an inherited key. */
  ghost predicate SomeInherited(routes: seq<Route>)
  {
    exists k :: 0 <= k < |routes| && Inherited(routes[k])
  }

  lemma InheritedAt(routes: seq<Route>, i: nat)
    requires i < |routes| && Inherited(routes[i])
    ensures SomeInherited(routes)
  {
  }

  lemma NoneInheritedStep(routes: seq<Route>, i: nat)
    requires i < |routes| && NoneInherited(routes, i) && !Inherited(routes[i])
    ensures NoneInherited(routes, i + 1)
  {
  }

  lemma NoThrowWithoutInherited(routes: seq<Route>)
    requires NoneInherited(routes, |routes|)
    ensures !SomeInherited(routes)
  {
  }

  /** The generator: its route table and its model schemas by name. */
  class APIDocumentationGenerator {
    var routes: seq<Route>
    var models: map<string, Json>

    constructor()
      ensures routes == [] && models == map[]
    {
      routes := [];
      models := map[];
    }

    /** `groupRoutesByTag`: each route is appended to the group of its first
        tag (or "Default"), groups listed in the order their first route
        appears. Each group holds exactly its routes in table order, and the
        groups together hold every route once. The groups live in a plain
        object, so a tag naming a key it inherits leaves `grouped[tag]`
        truthy but no array, and the `push` throws. */
    method GroupRoutesByTag() returns (threw: bool, tags: seq<string>, grouped: map<string, seq<Route>>)
      ensures threw <==> SomeInherited(routes)
      ensures !threw ==> Listed(tags, grouped) && TagsSeen(routes, tags) && Distinct(tags)
      ensures !threw ==> forall t :: t in grouped ==> grouped[t] == Filter(routes, InGroup(t))
      ensures !threw ==> Total(tags, grouped) == |routes|
      ensures !threw ==> InFirstRouteOrder(routes, tags)
    {
      threw := false;
      tags := [];
      grouped := map[];
      ghost var firsts: seq<int> := [];
      var i := 0;
      while i < |routes|
        invariant 0 <= i <= |routes|
        invariant Grouped(routes[..i], tags, grouped)
        invariant FirstsBefore(routes, tags, firsts, i)
        invariant NoneInherited(routes, i)
      {
        var r := routes[i];
        if Inherited(r) {
          InheritedAt(routes, i);
          return true, tags, grouped;
        }
        NoneInheritedStep(routes, i);
        var tag := TagOf(r);
        if tag !in grouped {
          OpenGroupAt(routes, i, tags, grouped);
          FirstsOpen(routes, tags, firsts, i);
          grouped := grouped[tag := [r]];
          tags := tags + [tag];
          firsts := firsts + [i];
        } else {
          JoinGroupAt(routes, i, tags, grouped);
          grouped := grouped[tag := grouped[tag] + [r]];
        }
        i := i + 1;
      }
      assert routes[..i] == routes;
      NoThrowWithoutInherited(routes);
      OrderFromFirsts(routes, tags, firsts);
      forall t | t in grouped
        ensures grouped[t] == Filter(routes, InGroup(t))
      {
        GroupOfIsFilter(routes, t);
      }
    }

    /** `addRoute`: exactly one route more, at the end. */
    method AddRoute(httpMethod: string, path: string, description: string, options: Options)
      modifies this`routes
      ensures routes == old(routes) + [NewRoute(httpMethod, path, description, options)]
    {
      routes := routes + [NewRoute(httpMethod, path, description, options)];
    }

    /** `addModel`: a later schema under the same name replaces the earlier. */
    method AddModel(name: string, schema: Json)
      modifies this`models
      ensures models == old(models)[name := schema]
    {
      models := models[name := schema];
    }
  }

  // ---------------------------------------------------------------------
  // Status texts
  // ---------------------------------------------------------------------

  function GetStatusText(statusCode: int): (text: string)
    ensures text == "Unknown" <==> statusCode !in {200, 201, 400, 401, 403, 404, 409, 500}
  {
    match statusCode
    case 200 => "OK"
    case 201 => "Created"
    case 400 => "Bad Request"
    case 401 => "Unauthorized"
    case 403 => "Forbidden"
    case 404 => "Not Found"
    case 409 => "Conflict"
    case 500 => "Internal Server Error"
    case _ => "Unknown"
  }

  /** The known codes have distinct texts. */
  lemma StatusTextsDistinct(a: int, b: int)
    requires GetStatusText(a) != "Unknown" && a != b
    ensures GetStatusText(a) != GetStatusText(b)
  {
  }

  // ---------------------------------------------------------------------
  // Postman URLs
  // ---------------------------------------------------------------------

  function NonEmpty(): string -> bool
  {
    (s: string) => s != []
  }

  /** `route.path.split("/").filter((p) => p)`. */
  function PathSegments(path: string): (segments: seq<string>)
    ensures forall k :: 0 <= k < |segments| ==> segments[k] != [] && '/' !in segments[k]
  {
    Filter(Split(path, '/'), NonEmpty())
  }

  /** A path written as a slash before each of its non-empty, slash-free
      segments splits back into those segments. */
  lemma PathSegmentsOfJoin(segments: seq<string>)
    requires segments != []
    requires forall k :: 0 <= k < |segments| ==> segments[k] != [] && '/' !in segments[k]
    ensures PathSegments("/" + JoinChar(segments, '/')) == segments
  {
    var parts := [[]] + segments;
    assert "/" + JoinChar(segments, '/') == JoinChar(parts, '/') by {
      assert parts[1..] == segments;
    }
    SplitJoin(parts, '/');
    assert parts[1..] == segments;
    AllKept(segments, NonEmpty());
  }

  lemma {:induction false} AllKept<T>(xs: seq<T>, p: T -> bool)
    requires forall k :: 0 <= k < |xs| ==> p(xs[k])
    ensures Filter(xs, p) == xs
  {
    if xs != [] {
      AllKept(xs[1..], p);
    }
  }

  /** One parameter's pass: its `:name` segments become `{{name}}`. */
  function ReplaceParam(segments: seq<string>, name: string): (r: seq<string>)
    ensures |r| == |segments|
    ensures forall k :: 0 <= k < |r| ==> r[k] == if segments[k] == ":" + name then "{{" + name + "}}" else segments[k]
  {
    seq(|segments|, k requires 0 <= k < |segments| => if segments[k] == ":" + name then "{{" + name + "}}" else segments[k])
  }

  /** A Postman URL variable for a path parameter. */
  datatype Variable = Variable(key: string, value: string, description: string)

  /** A segment naming one of the declared parameters. */
  predicate NamesParam(segment: string, params: seq<Param>)
  {
    |segment| >= 1 && segment[0] == ':' && exists p :: 0 <= p < |params| && params[p].name == segment[1..]
  }

  /** The path after the parameter pass: a segment `:name` for a declared
      parameter `name` becomes `{{name}}`, and every other segment stays. */
  ghost function Placeholder(segment: string, params: seq<Param>): string
  {
    if NamesParam(segment, params) then "{{" + segment[1..] + "}}" else segment
  }

  /** The `forEach` over the parameters: each replaces its own segments in
      the path and adds one URL variable, in declaration order. */
  method RewritePathParams(segments: seq<string>, params: seq<Param>) returns (path: seq<string>, variables: seq<Variable>)
    ensures |path| == |segments|
    ensures forall k :: 0 <= k < |path| ==> path[k] == Placeholder(segments[k], params)
    ensures |variables| == |params|
    ensures forall p :: 0 <= p < |params| ==> variables[p] == Variable(params[p].name, "", params[p].description)
  {
    path := segments;
    variables := [];
    var i := 0;
    while i < |params|
      invariant 0 <= i <= |params|
      invariant |path| == |segments|
      invariant forall k :: 0 <= k < |path| ==> path[k] == Placeholder(segments[k], params[..i])
      invariant |variables| == i
      invariant forall p :: 0 <= p < i ==> variables[p] == Variable(params[p].name, "", params[p].description)
    {
      var name := params[i].name;
      forall k | 0 <= k < |path|
        ensures ReplaceParam(path, name)[k] == Placeholder(segments[k], params[..i + 1])
      {
        PlaceholderStep(segments[k], params, i);
      }
      path := ReplaceParam(path, name);
      variables := variables + [Variable(name, "", params[i].description)];
      i := i + 1;
    }
    assert params[..i] == params;
  }

  /** A segment names one of the first i + 1 parameters exactly when it
      names one of the first i, or is `:` and the next one's name. */
  lemma NamesOneMore(segment: string, params: seq<Param>, i: nat)
    requires i < |params|
    ensures NamesParam(segment, params[..i + 1]) <==> NamesParam(segment, params[..i]) || segment == ":" + params[i].name
  {
    var before := params[..i];
    var after := params[..i + 1];
    if NamesParam(segment, after) {
      var p :| 0 <= p < |after| && after[p].name == segment[1..];
      if p < i {
        assert before[p] == after[p];
      } else {
        assert segment == [segment[0]] + segment[1..];
      }
    }
    if NamesParam(segment, before) {
      var p :| 0 <= p < |before| && before[p].name == segment[1..];
      assert after[p] == before[p];
    }
    if segment == ":" + params[i].name {
      assert after[i] == params[i] && segment[1..] == params[i].name;
    }
  }

  /** One more parameter pass on a segment already processed for the
      earlier parameters. */
  lemma PlaceholderStep(segment: string, params: seq<Param>, i: nat)
    requires i < |params|
    ensures (var s := Placeholder(segment, params[..i]);
             if s == ":" + params[i].name then "{{" + params[i].name + "}}" else s)
            == Placeholder(segment, params[..i + 1])
  {
    NamesOneMore(segment, params, i);
    if NamesParam(segment, params[..i]) {
      assert Placeholder(segment, params[..i])[0] == '{';
    } else if segment == ":" + params[i].name {
      assert segment[1..] == params[i].name;
    }
  }

  /** A Postman query item: disabled exactly when the parameter is not
      required. */
  datatype QueryItem = QueryItem(key: string, value: string, description: string, disabled: bool)

  function QueryItems(query: seq<Param>): (items: seq<QueryItem>)
    ensures |items| == |query|
    ensures forall k :: 0 <= k < |query| ==> items[k].key == query[k].name && items[k].value == ""
    ensures forall k :: 0 <= k < |query| ==> (items[k].disabled <==> !query[k].required)
  {
    seq(|query|, k requires 0 <= k < |query| => QueryItem(query[k].name, "", query[k].description, !query[k].required))
  }

  /** The URL part of a Postman request for a route. */
  datatype Url = Url(raw: string, host: seq<string>, path: seq<string>, query: seq<QueryItem>, variables: seq<Variable>)

  /** A Postman request: its name, method, URL, whether it carries the
      bearer token, and whether it has a body. */
  datatype Request = Request(name: string, httpMethod: string, url: Url, bearer: bool, hasBody: bool)

  method PostmanRequest(route: Route) returns (request: Request)
    ensures request.name == route.description && request.httpMethod == route.httpMethod
    ensures request.url.raw == "{{baseUrl}}" + route.path && request.url.host == ["{{baseUrl}}"]
    ensures |request.url.path| == |PathSegments(route.path)|
    ensures forall k :: 0 <= k < |request.url.path| ==>
      request.url.path[k] == Placeholder(PathSegments(route.path)[k], route.params)
    ensures request.url.query == QueryItems(route.query)
    ensures |request.url.variables| == |route.params|
    ensures request.bearer == route.auth && request.hasBody == (|route.body| > 0)
  {
    var path, variables := RewritePathParams(PathSegments(route.path), route.params);
    var url := Url("{{baseUrl}}" + route.path, ["{{baseUrl}}"], path, QueryItems(route.query), variables);
    request := Request(route.description, route.httpMethod, url, route.auth, |route.body| > 0);
  }
}
