/**
 * The list-query pipeline: copy the query, delete the reserved keys, rewrite
 * the JSON text of the rest into a filter, take projection and sort from the
 * original query, count the whole collection, run the query, and wrap the
 * result with its pagination descriptor.
 *
 * The database is a parameter: `find` runs a plan and `collection` is what
 * `countDocuments()` counts. Nothing of page or limit reaches the plan.
 */
module ListQuery {
  import opened Wrappers
  import JsString
  import Json
  import Operators
  import Paging
  import opened Http

  /** `req.query` as the query-string parser built it: an object, its members in order. */
  type Query = seq<Json.Member>

  const ReservedKeys: seq<string> := ["select", "sort", "page", "limit"]
  /** The same keys as a set. */
  const Reserved: set<string> := {"select", "sort", "page", "limit"}

  /** The members of q whose key is not in `keys`, in their order. */
  function Without(q: Query, keys: set<string>): (r: Query)
    ensures |r| <= |q|
    ensures forall m :: m in r <==> m in q && m.key !in keys
  {
    if q == [] then []
    else if q[0].key in keys then Without(q[1..], keys)
    else [q[0]] + Without(q[1..], keys)
  }

  lemma KeySetMembers(q: Query)
    ensures Json.KeySet(q) == set m | m in q :: m.key
  {
    forall k | k in Json.KeySet(q) ensures k in set m | m in q :: m.key {
      var i :| 0 <= i < |q| && q[i].key == k;
      assert q[i] in q;
    }
    forall k | k in (set m | m in q :: m.key) ensures k in Json.KeySet(q) {
      var m :| m in q && m.key == k;
      var i :| 0 <= i < |q| && q[i] == m;
    }
  }

  /** The copy has exactly the keys of the query that are not deleted. */
  lemma WithoutKeySet(q: Query, keys: set<string>)
    ensures Json.KeySet(Without(q, keys)) == Json.KeySet(q) - keys
  {
    var r := Without(q, keys);
    KeySetMembers(q);
    KeySetMembers(r);
    forall k | k in Json.KeySet(q) - keys ensures k in Json.KeySet(r) {
      var m :| m in q && m.key == k;
      assert m in r;
    }
  }

  lemma {:induction false} WithoutWithout(q: Query, a: set<string>, b: set<string>)
    ensures Without(Without(q, a), b) == Without(q, a + b)
  {
    if q != [] {
      WithoutWithout(q[1..], a, b);
      if q[0].key !in a {
        assert ([q[0]] + Without(q[1..], a))[1..] == Without(q[1..], a);
      }
    }
  }

  lemma WithoutNothing(q: Query)
    ensures Without(q, {}) == q
  {
    if q != [] {
      WithoutNothing(q[1..]);
      assert [q[0]] + q[1..] == q;
    }
  }

  /** Deleting keys does not change the value of any other key. */
  lemma {:induction false} GetWithout(q: Query, keys: set<string>, k: string)
    ensures k !in keys ==> Json.Get(Without(q, keys), k) == Json.Get(q, k)
    ensures k in keys ==> Json.Get(Without(q, keys), k).None?
  {
    if q != [] {
      GetWithout(q[1..], keys, k);
      if q[0].key !in keys {
        assert ([q[0]] + Without(q[1..], keys))[1..] == Without(q[1..], keys);
      }
    }
  }

  function KeysOf(s: seq<string>): set<string> {
    set k | k in s
  }

  lemma ReservedKeysSet()
    ensures KeysOf(ReservedKeys) == Reserved
  {
    assert ReservedKeys[0] == "select" && ReservedKeys[1] == "sort";
    assert ReservedKeys[2] == "page" && ReservedKeys[3] == "limit";
  }

  /** `fields.forEach(param => delete reqQuery[param])` on a copy of the query: the copy loses exactly those keys. */
  method DeleteEach(query: Query, fields: seq<string>) returns (reqQuery: Query)
    ensures reqQuery == Without(query, KeysOf(fields))
  {
    reqQuery := query;
    DeleteNone(query, fields);
    var i := 0;
    while i < |fields|
      invariant 0 <= i <= |fields|
      invariant reqQuery == Without(query, KeysOf(fields[..i]))
    {
      DeleteStep(query, fields, i, reqQuery);
      reqQuery := Without(reqQuery, {fields[i]});
      i := i + 1;
    }
    assert fields[..i] == fields;
  }

  lemma DeleteNone(query: Query, fields: seq<string>)
    ensures Without(query, KeysOf(fields[..0])) == query
  {
    assert KeysOf(fields[..0]) == {};
    WithoutNothing(query);
  }

  /** Deleting one more field from the copy. */
  lemma DeleteStep(query: Query, fields: seq<string>, i: nat, r: Query)
    requires i < |fields| && r == Without(query, KeysOf(fields[..i]))
    ensures Without(r, {fields[i]}) == Without(query, KeysOf(fields[..i + 1]))
  {
    WithoutWithout(query, KeysOf(fields[..i]), {fields[i]});
    assert fields[..i + 1] == fields[..i] + [fields[i]];
    assert KeysOf(fields[..i + 1]) == KeysOf(fields[..i]) + {fields[i]};
  }

  /** `reqQuery = {...req.query}` and then the deletion loop over the reserved keys. */
  method RemoveReserved(query: Query) returns (reqQuery: Query)
    ensures reqQuery == Without(query, {"select", "sort", "page", "limit"})
  {
    reqQuery := DeleteEach(query, ReservedKeys);
    ReservedKeysSet();
  }

  /** `JSON.parse(queryStr)` of the rewritten JSON text of the copy; None when JSON.parse throws. */
  function Filter(reqQuery: Query): Option<Json.JVal> {
    Json.Parse(Operators.ReplaceOperators(Json.Stringify(Json.Obj(reqQuery))))
  }

  /**
   * The filter is the copy with every key and every string value rewritten,
   * as long as the copy holds no control character.
   */
  lemma FilterRewritesKeysAndValues(reqQuery: Query)
    requires Operators.ValueNoControl(Json.Obj(reqQuery))
    ensures Filter(reqQuery) == Some(Operators.RewriteValue(Json.Obj(reqQuery)))
    ensures Filter(reqQuery).value.Obj? && |Filter(reqQuery).value.members| == |reqQuery|
    ensures forall i :: 0 <= i < |reqQuery| ==>
      Filter(reqQuery).value.members[i].key == Operators.ReplaceOperators(reqQuery[i].key)
  {
    Operators.ParseRewritten(Json.Obj(reqQuery));
    Operators.RewriteMembersAt(reqQuery);
  }

  /** `query.select(fields)` and `query.sort(sortBy)` take the list with each ',' made a ' '. */
  function CommasToSpaces(s: string): (r: string)
    ensures r == JsString.ReplaceChar(s, ',', ' ')
  {
    JsString.SplitJoinIsReplace(s, ',', ' ');
    JsString.Join(JsString.Split(s, ','), " ")
  }

  /** The truth value of a query value: absent and the empty string are false; arrays and objects are true. */
  predicate Truthy(v: Option<Json.JVal>) {
    v.Some? && (v.value.Str? ==> v.value.s != "")
  }

  /** The projection from `req.query.select`: none when falsy; `.split` is no method of an array or object. */
  function Projection(v: Option<Json.JVal>): (r: Result<Option<string>, Failure>)
    ensures r.Ok? && r.value.Some? <==> Truthy(v) && v.value.Str?
    ensures r.Ok? && r.value.Some? ==> r.value.value == JsString.ReplaceChar(v.value.s, ',', ' ')
    ensures r.Err? <==> Truthy(v) && !v.value.Str?
  {
    if !Truthy(v) then Ok(None)
    else match v.value
      case Str(s) => Ok(Some(CommasToSpaces(s)))
      case _ => Err(TypeError("req.query.select.split is not a function"))
  }

  const DefaultSort := "-createdAt"

  /** The sort from `req.query.sort`: newest first when falsy. */
  function SortOrder(v: Option<Json.JVal>): (r: Result<string, Failure>)
    ensures !Truthy(v) ==> r == Ok(DefaultSort)
    ensures Truthy(v) && v.value.Str? ==> r == Ok(JsString.ReplaceChar(v.value.s, ',', ' '))
    ensures r.Err? <==> Truthy(v) && !v.value.Str?
  {
    if !Truthy(v) then Ok(DefaultSort)
    else match v.value
      case Str(s) => Ok(CommasToSpaces(s))
      case _ => Err(TypeError("req.query.sort.split is not a function"))
  }

  /** A populate descriptor: a path and an optional field selection of the referenced record. */
  datatype Populate = Populate(path: string, select: Option<string>)

  /** The Mongoose query as built: a filter, a projection, a sort and a populate; no skip and no limit. */
  datatype Plan = Plan(filter: Json.JVal, projection: Option<string>, sort: string, populate: Option<Populate>)

  /**
   * The plan the pipeline builds, or the failure that stops it. JSON.parse
   * comes first, then select, then sort. Select and sort are read from the
   * original query, which still has them.
   */
  function PlanFor(query: Query, populate: Option<Populate>): (r: Result<Plan, Failure>)
    ensures r.Ok? ==> Some(r.value.filter) == Filter(Without(query, Reserved))
    ensures r.Ok? ==> Projection(Json.Get(query, "select")) == Ok(r.value.projection)
    ensures r.Ok? ==> SortOrder(Json.Get(query, "sort")) == Ok(r.value.sort)
    ensures r.Ok? ==> r.value.populate == populate
    ensures r.Err? <==> Filter(Without(query, Reserved)).None?
                        || Projection(Json.Get(query, "select")).Err?
                        || SortOrder(Json.Get(query, "sort")).Err?
  {
    match Filter(Without(query, Reserved))
    case None => Err(SyntaxError)
    case Some(filter) =>
      match Projection(Json.Get(query, "select"))
      case Err(e) => Err(e)
      case Ok(projection) =>
        match SortOrder(Json.Get(query, "sort"))
        case Err(e) => Err(e)
        case Ok(sort) => Ok(Plan(filter, projection, sort, populate))
  }

  function PageOf(query: Query): int {
    Paging.Page(Json.Get(query, "page"))
  }

  function LimitOf(query: Query): int {
    Paging.Limit(Json.Get(query, "limit"))
  }

  /**
   * `res.advancedResults`: everything the plan finds, its length as `count`,
   * and the descriptor for the page and limit against the total.
   */
  function ListResult<D>(query: Query, populate: Option<Populate>, total: nat, find: Plan -> seq<D>)
    : (r: Result<Envelope<D>, Failure>)
    ensures r.Err? <==> PlanFor(query, populate).Err?
    ensures r.Ok? ==> r.value.success && r.value.count == |r.value.data|
    ensures r.Ok? ==> r.value.data == find(PlanFor(query, populate).value)
    ensures r.Ok? ==> r.value.pagination.Some?
                      && Paging.Describes(r.value.pagination.value, PageOf(query), LimitOf(query), total)
  {
    match PlanFor(query, populate)
    case Err(e) => Err(e)
    case Ok(plan) =>
      var data := find(plan);
      Ok(Envelope(true, |data|, Some(Paging.Descriptor(PageOf(query), LimitOf(query), total)), data))
  }

  /**
   * The middleware `advancedResults(model, populate)` as the source runs it:
   * the copy and the deletion loop, the query reassigned step by step, the
   * count of the collection, the execution, and `pagination` filled in.
   */
  method AdvancedResults<D>(query: Query, populate: Option<Populate>, collection: seq<D>, find: Plan -> seq<D>)
    returns (r: Result<Envelope<D>, Failure>)
    ensures r == ListResult(query, populate, |collection|, find)
  {
    var reqQuery := RemoveReserved(query);
    var queryStr := Json.Stringify(Json.Obj(reqQuery));
    queryStr := Operators.ReplaceOperators(queryStr);
    var filter := Json.Parse(queryStr);
    if filter.None? {
      return Err(SyntaxError);
    }
    var plan := Plan(filter.value, None, "", None);
    var select := Json.Get(query, "select");
    if Truthy(select) {
      if !select.value.Str? {
        return Err(TypeError("req.query.select.split is not a function"));
      }
      plan := plan.(projection := Some(JsString.Join(JsString.Split(select.value.s, ','), " ")));
    }
    var sort := Json.Get(query, "sort");
    if Truthy(sort) {
      if !sort.value.Str? {
        return Err(TypeError("req.query.sort.split is not a function"));
      }
      plan := plan.(sort := JsString.Join(JsString.Split(sort.value.s, ','), " "));
    } else {
      plan := plan.(sort := DefaultSort);
    }
    var page := Paging.Page(Json.Get(query, "page"));
    var limit := Paging.Limit(Json.Get(query, "limit"));
    var total := |collection|;
    if populate.Some? {
      plan := plan.(populate := populate);
    }
    var results := find(plan);
    var pagination := Paging.BuildPagination(page, limit, total);
    Paging.DescriptorUnique(pagination, page, limit, total);
    r := Ok(Envelope(true, |results|, Some(pagination), results));
  }

  // ---------------------------------------------------------------------
  // What the pipeline does and does not look at

  /** The filter has none of the reserved keys, and every other key of the query. */
  lemma FilterKeys(query: Query)
    ensures Json.KeySet(Without(query, Reserved))
            == Json.KeySet(query) - {"select", "sort", "page", "limit"}
  {
    WithoutKeySet(query, Reserved);
  }

  /**
   * Page and limit never reach the plan: two queries that differ only there
   * get the same data, so no skip and no limit is applied.
   */
  lemma {:induction false} PagingDoesNotNarrow<D>(q1: Query, q2: Query, populate: Option<Populate>, total: nat,
                                                   find: Plan -> seq<D>)
    requires Without(q1, {"page", "limit"}) == Without(q2, {"page", "limit"})
    ensures PlanFor(q1, populate) == PlanFor(q2, populate)
    ensures ListResult(q1, populate, total, find).Ok? ==>
      ListResult(q2, populate, total, find).Ok?
      && ListResult(q1, populate, total, find).value.data == ListResult(q2, populate, total, find).value.data
  {
    SameUnlessPaging(q1, q2);
  }

  /** What the plan reads of two queries that differ only in page and limit is the same. */
  lemma SameUnlessPaging(q1: Query, q2: Query)
    requires Without(q1, {"page", "limit"}) == Without(q2, {"page", "limit"})
    ensures Without(q1, Reserved) == Without(q2, Reserved)
    ensures Json.Get(q1, "select") == Json.Get(q2, "select") && Json.Get(q1, "sort") == Json.Get(q2, "sort")
  {
    PagingReserved();
    SameWithoutMore(q1, q2, {"page", "limit"}, Reserved);
    SameGet(q1, q2, {"page", "limit"}, "select");
    SameGet(q1, q2, {"page", "limit"}, "sort");
  }

  lemma PagingReserved()
    ensures {"page", "limit"} <= Reserved
  {
  }

  /** Two queries equal once the keys a are deleted stay equal when more keys are deleted. */
  lemma SameWithoutMore(q1: Query, q2: Query, a: set<string>, b: set<string>)
    requires Without(q1, a) == Without(q2, a) && a <= b
    ensures Without(q1, b) == Without(q2, b)
  {
    WithoutWithout(q1, a, b);
    WithoutWithout(q2, a, b);
    assert a + b == b;
  }

  /** Two queries equal once `keys` are deleted agree on every other key. */
  lemma SameGet(q1: Query, q2: Query, keys: set<string>, k: string)
    requires Without(q1, keys) == Without(q2, keys) && k !in keys
    ensures Json.Get(q1, k) == Json.Get(q2, k)
  {
    GetWithout(q1, keys, k);
    GetWithout(q2, keys, k);
  }

  /** The total is the size of the whole collection, whatever the filter keeps. */
  lemma TotalIgnoresFilter<D>(query: Query, populate: Option<Populate>, collection: seq<D>, find: Plan -> seq<D>)
    requires ListResult(query, populate, |collection|, find).Ok?
    ensures ListResult(query, populate, |collection|, find).value.pagination
            == Some(Paging.Descriptor(PageOf(query), LimitOf(query), |collection|))
  {
    var p := ListResult(query, populate, |collection|, find).value.pagination.value;
    Paging.DescriptorUnique(p, PageOf(query), LimitOf(query), |collection|);
  }

  /** A query of only `limit=1` keeps nothing for the filter. */
  lemma LimitOnlyPlan()
    ensures PlanFor([Json.Member("limit", Json.Str("1"))], None) == Ok(Plan(Json.Obj([]), None, DefaultSort, None))
  {
    var q := [Json.Member("limit", Json.Str("1"))];
    assert "limit" in Reserved;
    assert Without(q, Reserved) == Without([], Reserved) by {
      assert q[1..] == [];
    }
    Operators.ParseRewritten(Json.Obj([]));
    assert Operators.RewriteValue(Json.Obj([])) == Json.Obj([]);
    assert Json.Get(q, "select").None? && Json.Get(q, "sort").None?;
  }

  /** With `limit=1` and two matching records, both are returned and `count` is 2. */
  lemma CountExceedsLimit<D>(total: nat, find: Plan -> seq<D>)
    requires |find(Plan(Json.Obj([]), None, DefaultSort, None))| == 2
    ensures LimitOf([Json.Member("limit", Json.Str("1"))]) == 1
    ensures ListResult([Json.Member("limit", Json.Str("1"))], None, total, find).Ok?
    ensures ListResult([Json.Member("limit", Json.Str("1"))], None, total, find).value.count == 2
  {
    var q := [Json.Member("limit", Json.Str("1"))];
    Paging.PageAsWritten(1, "");
    assert JsString.Decimal(1) + "" == "1";
    assert Json.Get(q, "limit") == Some(Json.Str("1"));
    assert Paging.Limit(Some(Json.Str("1"))) == 1 by {
      Paging.ParseDecimal(1, "");
    }
    LimitOnlyPlan();
  }
}
