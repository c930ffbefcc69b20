/** The `validateBody(schema)` middleware of
    recipe-api/src/middleware/validateBody.js. The Yup schema is a parameter:
    it yields either the validated (stripped) body or the list of its inner
    errors, each with a path and a message. A failure is flattened into a map
    from path to message in which the first message per path wins, except
    that an empty message (falsy) can still be overwritten by a later one. */
module ValidateBody {
  import opened Wrappers
  import opened Js
  import opened Http
  import opened Requests

  const ValidationError := "Validation error"

  datatype Issue = Issue(path: string, message: string)

  /** What `schema.validate(body, { abortEarly: false, stripUnknown: true })`
      settles with. A rejection that is not a Yup `ValidationError` has no
      `inner` list, written `None`. */
  datatype Validation = Valid(value: JsValue) | Invalid(inner: Option<seq<Issue>>)

  /** The paths that occur in `inner`. */
  function Paths(inner: seq<Issue>): set<string> {
    set k | 0 <= k < |inner| :: inner[k].path
  }

  /** The reference reading of the flattening: the first non-empty message
      reported for `p`, or "" when every message for `p` is empty. */
  function FirstMessage(inner: seq<Issue>, p: string): string {
    if inner == [] then ""
    else if inner[0].path == p && inner[0].message != "" then inner[0].message
    else FirstMessage(inner[1..], p)
  }

  /** The map the flattening builds: one key per path, holding its first message. */
  function FirstMessages(inner: seq<Issue>): (r: map<string, string>)
    ensures r.Keys == Paths(inner)
    ensures forall p | p in r :: r[p] == FirstMessage(inner, p)
  {
    map p | p in Paths(inner) :: FirstMessage(inner, p)
  }

  /** Adding an issue at the end changes only its path's message, and only
      while that message is still empty. */
  lemma {:induction false} FirstMessageSnoc(inner: seq<Issue>, x: Issue, p: string)
    ensures FirstMessage(inner + [x], p) ==
              if p == x.path && FirstMessage(inner, p) == "" then x.message else FirstMessage(inner, p)
  {
    if inner == [] {
      assert [x][1..] == [];
    } else {
      assert (inner + [x])[1..] == inner[1..] + [x];
      FirstMessageSnoc(inner[1..], x, p);
    }
  }

  /** The same step on the whole map: `errors[path] = message` happens
      exactly when the path is new or its message so far is empty. */
  lemma FirstMessagesSnoc(inner: seq<Issue>, x: Issue)
    ensures FirstMessages(inner + [x]) ==
              var m := FirstMessages(inner);
              if x.path !in m || m[x.path] == "" then m[x.path := x.message] else m
  {
    var m := FirstMessages(inner);
    var n := FirstMessages(inner + [x]);
    assert Paths(inner + [x]) == Paths(inner) + {x.path} by {
      forall p | p in Paths(inner + [x]) ensures p in Paths(inner) + {x.path} {
        var k :| 0 <= k < |inner + [x]| && (inner + [x])[k].path == p;
        if k < |inner| { assert inner[k].path == p; }
      }
      forall p | p in Paths(inner) ensures p in Paths(inner + [x]) {
        var k :| 0 <= k < |inner| && inner[k].path == p;
        assert (inner + [x])[k].path == p;
      }
      assert (inner + [x])[|inner|].path == x.path;
    }
    forall p ensures FirstMessage(inner + [x], p) ==
                     if p == x.path && FirstMessage(inner, p) == "" then x.message else FirstMessage(inner, p) {
      FirstMessageSnoc(inner, x, p);
    }
    if x.path !in m {
      assert FirstMessage(inner, x.path) == "" by {
        FirstMessageOffPath(inner, x.path);
      }
    }
  }

  /** A path that never occurs has no message. */
  lemma {:induction false} FirstMessageOffPath(inner: seq<Issue>, p: string)
    requires p !in Paths(inner)
    ensures FirstMessage(inner, p) == ""
  {
    if inner != [] {
      assert inner[0].path in Paths(inner);
      assert Paths(inner[1..]) <= Paths(inner) by {
        forall q | q in Paths(inner[1..]) ensures q in Paths(inner) {
          var k :| 0 <= k < |inner[1..]| && inner[1..][k].path == q;
          assert inner[k + 1].path == q;
        }
      }
      FirstMessageOffPath(inner[1..], p);
    }
  }

  /** When no message is empty, a path's entry is the message of the first
      issue on that path, and later ones are ignored. */
  lemma {:induction false} FirstMessageIsFirst(inner: seq<Issue>, k: nat)
    requires forall j :: 0 <= j < |inner| ==> inner[j].message != ""
    requires k < |inner| && forall j :: 0 <= j < k ==> inner[j].path != inner[k].path
    ensures FirstMessage(inner, inner[k].path) == inner[k].message
  {
    if k > 0 {
      FirstMessageIsFirst(inner[1..], k - 1);
    }
  }

  /** `err.inner?.forEach(({ path, message }) => { if (!errors[path]) errors[path] = message; })` */
  method FlattenErrors(inner: seq<Issue>) returns (errors: map<string, string>)
    ensures errors == FirstMessages(inner)
  {
    errors := map[];
    var i := 0;
    while i < |inner|
      invariant 0 <= i <= |inner|
      invariant errors == FirstMessages(inner[..i])
    {
      var issue := inner[i];
      assert inner[..i + 1] == inner[..i] + [issue];
      FirstMessagesSnoc(inner[..i], issue);
      if issue.path !in errors || errors[issue.path] == "" {
        errors := errors[issue.path := issue.message];
      }
      i := i + 1;
    }
    assert inner[..i] == inner;
  }

  /** The field map of a failure: with no `inner` list it is `{}`. */
  function ErrorsOf(inner: Option<seq<Issue>>): (r: map<string, string>)
    ensures inner.None? ==> r == map[]
    ensures inner.Some? ==> r == FirstMessages(inner.value)
  {
    match inner
    case None => map[]
    case Some(issues) => FirstMessages(issues)
  }

  /** The middleware: on success the body is replaced by the validated value
      and `next()` is called; on failure nothing in the request changes and
      `next` receives a 400 `ApiError` carrying the flattened map. */
  method Validate(req: Request, schema: JsValue -> Validation) returns (n: Next)
    modifies req
    ensures schema(old(req.body)).Valid? ==> n == Proceed && req.body == schema(old(req.body)).value
    ensures schema(old(req.body)).Invalid? ==>
              && n == Forward(Api(ApiError(400, ValidationError, ErrorsOf(schema(old(req.body)).inner))))
              && req.body == old(req.body)
    ensures req.user == old(req.user) && req.attached == old(req.attached)
  {
    var outcome := schema(req.body);
    match outcome
    case Valid(value) =>
      req.body := value;
      n := Proceed;
    case Invalid(inner) =>
      var errors := map[];
      if inner.Some? {
        errors := FlattenErrors(inner.value);
      }
      n := Forward(Api(ApiError(400, ValidationError, errors)));
  }
}
