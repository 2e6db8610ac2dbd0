/** lib/passport-local/strategy.js: the older form of the local strategy. It reads
    `req.body.username` and `req.body.password` directly, passes nothing but those two to
    the verify callback, drops the callback's `info`, and does not catch a throwing callback. */
module LegacyLocalStrategy {
  import opened Wrappers
  import opened JsValue
  import opened PassportActions
  import LocalStrategy
  import Utils

  const StrategyName := "local"
  const VerifyRequiredMessage := "local authentication strategy requires a verify function"

  /** What one `authenticate(req)` does: report a framework action, or let the exception
      thrown by the verify callback propagate out of `authenticate`. */
  datatype Reaction = Reports(outcome: Outcome) | Propagates(exception: Value)

  /** The verify call for a request: `(req.body.username, req.body.password)`, or `None`
      when the body is missing or either property is falsy. */
  function LegacyCall(req: Request): (c: Option<Call>)
    ensures c.None? <==> !Truthy(req.body) || !Truthy(Get(req.body, "username"))
                                           || !Truthy(Get(req.body, "password"))
    ensures c.Some? ==> c.value == Call(None, Get(req.body, "username"), Get(req.body, "password"))
  {
    if !Truthy(req.body) || !Truthy(Get(req.body, "username")) || !Truthy(Get(req.body, "password"))
    then None
    else Some(Call(None, Get(req.body, "username"), Get(req.body, "password")))
  }

  /** The completion callback `function(err, user)`: its third argument is never read. */
  function LegacyCompletion(err: Value, user: Value): (o: Outcome)
    ensures o.Error? <==> Truthy(err)
    ensures o.Error? ==> o.err == err
    ensures o.Fail? <==> !Truthy(err) && !Truthy(user)
    ensures o.Fail? ==> o == Fail(Undefined, None)
    ensures o.Success? ==> o == Success(user, Undefined)
  {
    if Truthy(err) then Error(err)
    else if !Truthy(user) then Fail(Undefined, None)
    else Success(user, Undefined)
  }

  /** A legacy strategy instance: its `name` and `verify` are set once by the constructor. */
  class Strategy {
    const name: string
    const verify: Value

    /** Assigns `name` and `verify`. */
    constructor (verify: Value)
      ensures name == StrategyName && this.verify == verify
    {
      name := StrategyName;
      this.verify := verify;
    }

    /** `new Strategy(verify)`: a fresh strategy, or the message of the `Error` thrown for a
        falsy `verify`. */
    static method New(verify: Value) returns (r: Result<Strategy, string>)
      ensures r.Err? <==> !Truthy(verify)
      ensures r.Err? ==> r.error == VerifyRequiredMessage
      ensures r.Ok? ==> fresh(r.value) && r.value.name == StrategyName && r.value.verify == verify
    {
      if !Truthy(verify) {
        return Err(VerifyRequiredMessage);
      }
      var s := new Strategy(verify);
      return Ok(s);
    }

    /** `authenticate(req)` with the verify callback behaving as `verifyFn` does on the
        arguments it receives. */
    function Authenticate(req: Request, verifyFn: Call -> VerifyResult): (r: Reaction)
      ensures LegacyCall(req).None? ==> r == Reports(Fail(Undefined, None))
      ensures r.Propagates? <==> LegacyCall(req).Some? && verifyFn(LegacyCall(req).value).Throws?
      ensures r.Propagates? ==> r.exception == verifyFn(LegacyCall(req).value).exception
      ensures r.Reports? && r.outcome.Fail? ==> r.outcome == Fail(Undefined, None)
      ensures r.Reports? && r.outcome.Success? ==>
                LegacyCall(req).Some? &&
                var v := verifyFn(LegacyCall(req).value);
                v.Completes? && !Truthy(v.err) && Truthy(v.user) && r.outcome == Success(v.user, Undefined)
      ensures r.Reports? && r.outcome.Error? ==>
                LegacyCall(req).Some? &&
                var v := verifyFn(LegacyCall(req).value);
                v.Completes? && Truthy(v.err) && r.outcome.err == v.err
    {
      match LegacyCall(req)
      case None => Reports(Fail(Undefined, None))
      case Some(call) =>
        match verifyFn(call)
        case Throws(ex) => Propagates(ex)
        case Completes(err, user, _) => Reports(LegacyCompletion(err, user))
    }
  }

  /** A missing body or a falsy username or password gives the same reaction whatever the
      verify callback would have done: verify is not consulted. */
  lemma MissingCredentials(s: Strategy, req: Request, f: Call -> VerifyResult, g: Call -> VerifyResult)
    requires !Truthy(req.body) || !Truthy(Get(req.body, "username")) || !Truthy(Get(req.body, "password"))
    ensures s.Authenticate(req, f) == s.Authenticate(req, g)
  {
  }

  /** Only the body is read: two requests with the same body are authenticated alike,
      whatever their query and headers. */
  lemma BodyOnly(s: Strategy, a: Request, b: Request, f: Call -> VerifyResult)
    requires a.body == b.body
    ensures s.Authenticate(a, f) == s.Authenticate(b, f)
  {
  }

  /** The properties `username` and `password` are passed as they are, objects included:
      unlike lib/strategy.js, this version forwards a composite credential to verify. */
  lemma ForwardsComposite(req: Request, u: map<string, Value>, password: Value)
    requires req.body == Obj(map["username" := Obj(u), "password" := password]) && Truthy(password)
    ensures LegacyCall(req) == Some(Call(None, Obj(u), password))
  {
  }

  /** The decision table once the credentials are present: a throw propagates, a truthy
      `err` is an error, a falsy user a bare failure, a truthy user a success without info. */
  lemma CompletionTable(s: Strategy, req: Request, verifyFn: Call -> VerifyResult)
    requires LegacyCall(req).Some?
    ensures var v := verifyFn(LegacyCall(req).value);
            var o := s.Authenticate(req, verifyFn);
            (v.Throws? ==> o == Propagates(v.exception)) &&
            (v.Completes? && Truthy(v.err) ==> o == Reports(Error(v.err))) &&
            (v.Completes? && !Truthy(v.err) && !Truthy(v.user) ==> o == Reports(Fail(Undefined, None))) &&
            (v.Completes? && !Truthy(v.err) && Truthy(v.user) ==> o == Reports(Success(v.user, Undefined)))
  {
  }

  /** The `info` a completion supplies never reaches the framework. */
  lemma InfoIgnored(s: Strategy, req: Request, f: Call -> VerifyResult, g: Call -> VerifyResult)
    requires LegacyCall(req).Some?
    requires var c := LegacyCall(req).value;
             f(c).Completes? && g(c).Completes? && f(c).err == g(c).err && f(c).user == g(c).user
    ensures s.Authenticate(req, f) == s.Authenticate(req, g)
  {
  }

  /** A body with non-empty `username` and `password` strings is handed to verify as is. */
  lemma LegacyBodyCall(req: Request, user: string, password: string)
    requires user != "" && password != ""
    requires req.body == Obj(map["username" := Str(user), "password" := Str(password)])
    ensures LegacyCall(req) == Some(Call(None, Str(user), Str(password)))
  {
  }

  /** Without an `info`, the two completion callbacks report the same action. */
  lemma CompletionsAgree(err: Value, user: Value)
    ensures LegacyCompletion(err, user) == LocalStrategy.Verified(err, user, Undefined)
  {
  }

  /** For a body with non-empty string credentials and a verify callback that completes
      without info, the legacy strategy reports what lib/strategy.js reports with its
      default configuration. */
  lemma AgreesWithCurrent(s: Strategy, t: LocalStrategy.Strategy, req: Request,
                          options: Option<LocalStrategy.AuthenticateOptions>,
                          verifyFn: Call -> VerifyResult, user: string, password: string)
    requires t.usernameField == Utils.Name(LocalStrategy.DefaultUsernameField)
    requires t.passwordField == Utils.Name(LocalStrategy.DefaultPasswordField)
    requires !Truthy(t.passReqToCallback)
    requires user != "" && password != ""
    requires req.body == Obj(map["username" := Str(user), "password" := Str(password)])
    requires verifyFn(Call(None, Str(user), Str(password))).Completes?
    requires verifyFn(Call(None, Str(user), Str(password))).info == Undefined
    ensures s.Authenticate(req, verifyFn) == Reports(t.Authenticate(req, options, verifyFn))
  {
    var c := Call(None, Str(user), Str(password));
    LocalStrategy.DefaultBodyCredentialsCall(t, req, user, password);
    LocalStrategy.AuthenticateWithCall(t, req, options, verifyFn, c);
    LegacyBodyCall(req, user, password);
    CompletionsAgree(verifyFn(c).err, verifyFn(c).user);
  }
}
