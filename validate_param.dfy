/** `validateParam(name, Model, fields, attachAs)` of
    recipe-api/src/utils/validateParam.js: the `router.param` handler that
    checks an id parameter, optionally loads the document it names, and
    attaches the document (or the raw value) to the request. */
module ValidateParam {
  import opened Wrappers
  import opened Js
  import opened Http
  import opened Requests

  /** What `Model.findById(value).select(fields)` settles with. */
  datatype Lookup = Found(doc: JsValue) | Missing | Failed(error: Error)

  /** The optional `Model`: without one the raw value is attached. The
      `fields` projection is part of `find`. */
  datatype Loader = NoModel | Model(find: string -> Lookup)

  /** `attachAs || name`: an absent or empty `attachAs` falls back to `name`. */
  function AttachKey(name: string, attachAs: Option<string>): (key: string)
    ensures attachAs.Some? && attachAs.value != "" ==> key == attachAs.value
    ensures attachAs.None? || attachAs.value == "" ==> key == name
  {
    if attachAs.Some? && attachAs.value != "" then attachAs.value else name
  }

  function InvalidParam(name: string): Error {
    BadRequest("Invalid " + name)
  }

  function ParamNotFound(name: string): Error {
    NotFound(name + " not found")
  }

  /** The handler run for `value`. `isValid` is `mongoose.Types.ObjectId.isValid`.
      Only the two success paths attach anything, each under the attach key. */
  method Handle(req: Request, name: string, loader: Loader, attachAs: Option<string>,
                value: string, isValid: string -> bool)
    returns (n: Next)
    modifies req
    ensures !isValid(value) ==> n == Forward(InvalidParam(name)) && req.attached == old(req.attached)
    ensures isValid(value) && loader.Model? && loader.find(value).Failed? ==>
              n == Forward(loader.find(value).error) && req.attached == old(req.attached)
    ensures isValid(value) && loader.Model? && loader.find(value).Missing? ==>
              n == Forward(ParamNotFound(name)) && req.attached == old(req.attached)
    ensures isValid(value) && loader.Model? && loader.find(value).Found? ==>
              n == Proceed && req.attached == old(req.attached)[AttachKey(name, attachAs) := loader.find(value).doc]
    ensures isValid(value) && loader.NoModel? ==>
              n == Proceed && req.attached == old(req.attached)[AttachKey(name, attachAs) := Str(value)]
    ensures req.body == old(req.body) && req.user == old(req.user)
  {
    var key := AttachKey(name, attachAs);
    if !isValid(value) {
      return Forward(InvalidParam(name));
    }
    match loader {
      case Model(find) =>
        match find(value) {
          case Failed(err) =>
            return Forward(err);
          case Missing =>
            return Forward(ParamNotFound(name));
          case Found(doc) =>
            req.attached := req.attached[key := doc];
        }
      case NoModel =>
        req.attached := req.attached[key := Str(value)];
    }
    n := Proceed;
  }

  /** The handler stops with exactly the errors above: an invalid id is a 400
      and a missing document a 404, both naming the parameter. */
  lemma ParamErrors(name: string)
    ensures ErrorReply<int>(InvalidParam(name)) == Failure(400, "Invalid " + name)
    ensures ErrorReply<int>(ParamNotFound(name)) == Failure(404, name + " not found")
  {
  }
}
