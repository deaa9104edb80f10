/**
 * Problem detail documents (RFC 7807): the record, the fields of its JSON
 * form, how a more specific problem is derived from a general one, and the
 * HTTP response made from it (util/problem_detail.py).
 */
module ProblemDetails {
  import opened Wrappers

  /** A problem: its type URI and the optional members of section 3.1 of RFC 7807. */
  datatype ProblemDetail = ProblemDetail(
    uri: string,
    statusCode: Option<int>,
    title: Option<string>,
    detail: Option<string>,
    instance: Option<string>,
    debugMessage: Option<string>)

  /** `ProblemDetail(uri)` with every other member left out. */
  function Bare(uri: string): (r: ProblemDetail)
    ensures r.uri == uri && r.statusCode.None? && r.title.None? && r.detail.None?
  {
    ProblemDetail(uri, None, None, None, None, None)
  }

  /** Python's `a or b` on optional status codes: 0 and None are false. */
  function OrStatus(a: Option<int>, b: Option<int>): (r: Option<int>)
    ensures (a.Some? && a.value != 0) ==> r == a
    ensures !(a.Some? && a.value != 0) ==> r == b
  {
    if a.Some? && a.value != 0 then a else b
  }

  /** Python's `a or b` on optional strings: "" and None are false. */
  function OrText(a: Option<string>, b: Option<string>): (r: Option<string>)
    ensures Truthy(a) ==> r == a
    ensures !Truthy(a) ==> r == b
  {
    if Truthy(a) then a else b
  }

  /**
   * `detailed`: a new problem of the same type with the given detail,
   * instance and debug message; the status and title fall back to the
   * original's when not given.
   */
  function Detailed(p: ProblemDetail, detail: Option<string>, statusCode: Option<int>, title: Option<string>,
                    instance: Option<string>, debugMessage: Option<string>): (r: ProblemDetail)
    ensures r.uri == p.uri
    ensures r.detail == detail && r.instance == instance && r.debugMessage == debugMessage
    ensures r.statusCode == OrStatus(statusCode, p.statusCode)
    ensures r.title == OrText(title, p.title)
  {
    ProblemDetail(p.uri, OrStatus(statusCode, p.statusCode), OrText(title, p.title), detail, instance, debugMessage)
  }

  /**
   * `with_debug`: a new problem that keeps whatever of the original's
   * detail, status, title and instance is not overridden, with the given
   * debug message.
   */
  function WithDebug(p: ProblemDetail, debugMessage: Option<string>, detail: Option<string>, statusCode: Option<int>,
                     title: Option<string>, instance: Option<string>): (r: ProblemDetail)
    ensures r.uri == p.uri && r.debugMessage == debugMessage
    ensures Truthy(detail) ==> r.detail == detail
    ensures !Truthy(detail) ==> r.detail == p.detail
    ensures Truthy(instance) ==> r.instance == instance
    ensures !Truthy(instance) ==> r.instance == p.instance
    ensures r.statusCode == OrStatus(statusCode, p.statusCode)
    ensures r.title == OrText(title, p.title)
  {
    ProblemDetail(p.uri, OrStatus(statusCode, p.statusCode), OrText(title, p.title), OrText(detail, p.detail),
                  OrText(instance, p.instance), debugMessage)
  }

  /** `detailed` forgets the original's detail, instance and debug message. */
  lemma DetailedForgetsSpecifics(p: ProblemDetail, q: ProblemDetail, detail: Option<string>, statusCode: Option<int>,
                                 title: Option<string>, instance: Option<string>, debugMessage: Option<string>)
    requires p.uri == q.uri && p.statusCode == q.statusCode && p.title == q.title
    ensures Detailed(p, detail, statusCode, title, instance, debugMessage)
         == Detailed(q, detail, statusCode, title, instance, debugMessage)
  {
  }

  /** Adding the same debug information twice is adding it once. */
  lemma WithDebugIdempotent(p: ProblemDetail, debugMessage: Option<string>, detail: Option<string>,
                            statusCode: Option<int>, title: Option<string>, instance: Option<string>)
    ensures var once := WithDebug(p, debugMessage, detail, statusCode, title, instance);
      WithDebug(once, debugMessage, detail, statusCode, title, instance) == once
  {
  }

  /** Debug information added to a detailed problem leaves what patrons see untouched. */
  lemma WithDebugKeepsDetailed(p: ProblemDetail, detail: Option<string>, debugMessage: Option<string>)
    ensures var d := Detailed(p, detail, None, None, None, None);
      var r := WithDebug(d, debugMessage, None, None, None, None);
      r.detail == d.detail && r.title == d.title && r.statusCode == d.statusCode && r.uri == p.uri
  {
  }

  /** A JSON value as `json.dumps` receives it. */
  datatype JsonValue = JString(s: string) | JInt(n: int) | JNull

  function StatusValue(s: Option<int>): JsonValue
  {
    if s.Some? then JInt(s.value) else JNull
  }

  /** `str(title)`: a missing title prints as "None". */
  function Str(s: Option<string>): string
  {
    if s.Some? then s.value else "None"
  }

  /** The member names of a document. */
  function Names(members: seq<(string, JsonValue)>): (r: set<string>)
  {
    set i | 0 <= i < |members| :: members[i].0
  }

  /** An optional member, present only when its value is non-empty. */
  function Member(name: string, value: Option<string>): (r: seq<(string, JsonValue)>)
    ensures Truthy(value) ==> r == [(name, JString(value.value))]
    ensures !Truthy(value) ==> r == []
  {
    if Truthy(value) then [(name, JString(value.value))] else []
  }

  function When(b: bool, name: string): set<string>
  {
    if b then {name} else {}
  }

  /**
   * `json`: the members of the document, in insertion order: type, title
   * and status always, then detail, instance and debug message when they
   * are non-empty.
   */
  function Json(uri: string, status: Option<int>, title: Option<string>, detail: Option<string>,
                instance: Option<string>, debugMessage: Option<string>): (r: seq<(string, JsonValue)>)
    ensures |r| >= 3 && r[..3] == [("type", JString(uri)), ("title", JString(Str(title))), ("status", StatusValue(status))]
    ensures Truthy(detail) ==> |r| >= 4 && r[3] == ("detail", JString(detail.value))
    ensures Truthy(instance) ==> ("instance", JString(instance.value)) in r
    ensures Truthy(debugMessage) ==> ("debug_message", JString(debugMessage.value)) in r
    ensures forall m | m in r ::
      && (m.0 == "detail" ==> Truthy(detail) && m.1 == JString(detail.value))
      && (m.0 == "instance" ==> Truthy(instance) && m.1 == JString(instance.value))
      && (m.0 == "debug_message" ==> Truthy(debugMessage) && m.1 == JString(debugMessage.value))
    ensures |r| == 3 + |Member("detail", detail)| + |Member("instance", instance)| + |Member("debug_message", debugMessage)|
  {
    var head := [("type", JString(uri)), ("title", JString(Str(title))), ("status", StatusValue(status))];
    var r := head + Member("detail", detail) + Member("instance", instance) + Member("debug_message", debugMessage);
    assert r[..3] == head;
    r
  }

  lemma NamesOfAppend(a: seq<(string, JsonValue)>, b: seq<(string, JsonValue)>)
    ensures Names(a + b) == Names(a) + Names(b)
  {
    var ab := a + b;
    forall k | k in Names(a + b) ensures k in Names(a) + Names(b) {
      var i :| 0 <= i < |ab| && ab[i].0 == k;
      if i >= |a| { assert b[i - |a|].0 == k; }
    }
    forall k | k in Names(a) ensures k in Names(ab) {
      var i :| 0 <= i < |a| && a[i].0 == k;
      assert ab[i].0 == k;
    }
    forall k | k in Names(b) ensures k in Names(ab) {
      var i :| 0 <= i < |b| && b[i].0 == k;
      assert ab[|a| + i].0 == k;
    }
  }

  lemma NamesOfMember(name: string, value: Option<string>)
    ensures Names(Member(name, value)) == When(Truthy(value), name)
    ensures forall v :: Names([(name, v)]) == {name}
  {
    forall v ensures Names([(name, v)]) == {name} {
      assert [(name, v)][0].0 == name;
    }
    if Truthy(value) {
      assert Member(name, value)[0].0 == name;
    }
  }

  /**
   * The document always has type, title and status, and has each
   * optional member exactly when its value is non-empty.
   */
  lemma JsonMembers(uri: string, status: Option<int>, title: Option<string>, detail: Option<string>,
                    instance: Option<string>, debugMessage: Option<string>)
    ensures var r := Json(uri, status, title, detail, instance, debugMessage);
      && Names(r) == {"type", "title", "status"} + When(Truthy(detail), "detail")
           + When(Truthy(instance), "instance") + When(Truthy(debugMessage), "debug_message")
  {
    var head := [("type", JString(uri)), ("title", JString(Str(title))), ("status", StatusValue(status))];
    var d := Member("detail", detail);
    var n := Member("instance", instance);
    var m := Member("debug_message", debugMessage);
    assert Json(uri, status, title, detail, instance, debugMessage) == head + d + n + m;
    HeadNames(uri, status, title);
    NamesOfAppend(head, d);
    NamesOfAppend(head + d, n);
    NamesOfAppend(head + d + n, m);
    NamesOfMember("detail", detail);
    NamesOfMember("instance", instance);
    NamesOfMember("debug_message", debugMessage);
  }

  lemma HeadNames(uri: string, status: Option<int>, title: Option<string>)
    ensures Names([("type", JString(uri)), ("title", JString(Str(title))), ("status", StatusValue(status))])
         == {"type", "title", "status"}
  {
    var head := [("type", JString(uri)), ("title", JString(Str(title))), ("status", StatusValue(status))];
    NamesOfAppend([head[0]], [head[1]]);
    NamesOfAppend([head[0], head[1]], [head[2]]);
    assert [head[0], head[1]] + [head[2]] == head;
    NamesOfMember("type", Some(uri));
  }

  const JSON_MEDIA_TYPE := "application/api-problem+json"

  /** A Flask response: body, status and headers. */
  datatype Response = Response(body: seq<(string, JsonValue)>, status: int, headers: seq<(string, string)>)

  /** `response`: the JSON document, the status (400 when none is set) and the problem media type. */
  function ResponseOf(p: ProblemDetail): (r: Response)
    ensures r.status != 0
    ensures r.status == 400 <==> (p.statusCode.None? || p.statusCode.value in {0, 400})
    ensures r.headers == [("Content-Type", JSON_MEDIA_TYPE)]
    ensures r.body == Json(p.uri, p.statusCode, p.title, p.detail, p.instance, p.debugMessage)
  {
    var status := if p.statusCode.Some? && p.statusCode.value != 0 then p.statusCode.value else 400;
    Response(Json(p.uri, p.statusCode, p.title, p.detail, p.instance, p.debugMessage), status,
             [("Content-Type", JSON_MEDIA_TYPE)])
  }
}
