/** lib/strategy.js: the local strategy. The constructor fixes the field names, the verify
    callback and whether the request is passed through; `authenticate` reads the credentials
    from the body or the query, rejects missing ones, and maps the verify callback's result
    onto exactly one framework action. */
module LocalStrategy {
  import opened Wrappers
  import opened JsValue
  import opened Utils
  import opened PassportActions

  const DefaultUsernameField := "username"
  const DefaultPasswordField := "password"
  const StrategyName := "local"
  const MissingCredentialsMessage := "Missing credentials"
  const VerifyRequiredMessage := "LocalStrategy requires a verify callback"
  const BadRequestStatus: nat := 400

  /** The constructor's options object. A field option that is absent or `undefined` is
      `None`; `passReqToCallback` keeps whatever value was given. */
  datatype StrategyOptions = StrategyOptions(
    usernameField: Option<Fields>,
    passwordField: Option<Fields>,
    passReqToCallback: Value)

  /** `{}` */
  const NoOptions := StrategyOptions(None, None, Undefined)

  /** The constructor's first argument: a function (then it is the verify callback), an
      options object, or `undefined` / `null`. */
  datatype FirstArgument = VerifyFunction(id: nat) | Options(options: StrategyOptions) | Nullish

  /** Why construction throws: the `TypeError` with a fixed message for a missing verify
      callback, or the `TypeError` the engine raises on reading a property of `undefined`
      or `null` options. */
  datatype ConstructionError = TypeError(message: string) | UnreadableOptions

  /** The instance fields the constructor sets: `_usernameField`, `_passwordField`, `name`,
      `_verify` and `_passReqToCallback`. */
  datatype Config = Config(
    usernameField: Fields,
    passwordField: Fields,
    name: string,
    verify: Value,
    passReqToCallback: Value)

  /** `!!fields`: a non-empty name; a list of names is an array, hence truthy. */
  predicate FieldsTruthy(f: Fields) {
    f.Names? || f.name != ""
  }

  /** `option || default` for a field option. */
  function FieldOr(option: Option<Fields>, default: string): (f: Fields)
    ensures option.Some? && FieldsTruthy(option.value) ==> f == option.value
    ensures !(option.Some? && FieldsTruthy(option.value)) ==> f == Name(default)
  {
    if option.Some? && FieldsTruthy(option.value) then option.value else Name(default)
  }

  /** What `new Strategy(options, verify)` computes: after a function first argument has
      been taken as `verify` with `{}` as options, a falsy `verify` throws, nullish options
      throw on the first property read, and otherwise the fields get their defaults. */
  function Configure(first: FirstArgument, verify: Value): (r: Result<Config, ConstructionError>)
    ensures first.VerifyFunction? ==> r.Ok? && r.value.verify == Func(first.id)
    ensures !first.VerifyFunction? && !Truthy(verify) ==> r == Err(TypeError(VerifyRequiredMessage))
    ensures first.Nullish? && Truthy(verify) ==> r == Err(UnreadableOptions)
    ensures first.Options? && Truthy(verify) ==> r.Ok? && r.value.verify == verify
    ensures r.Ok? ==> r.value.name == StrategyName && Truthy(r.value.verify)
    ensures r.Ok? ==> FieldsTruthy(r.value.usernameField) && FieldsTruthy(r.value.passwordField)
    ensures first.VerifyFunction? ==>
              r == Ok(Config(Name(DefaultUsernameField), Name(DefaultPasswordField), StrategyName,
                             Func(first.id), Undefined))
    ensures first.Options? && r.Ok? ==>
              r.value.usernameField == FieldOr(first.options.usernameField, DefaultUsernameField) &&
              r.value.passwordField == FieldOr(first.options.passwordField, DefaultPasswordField) &&
              r.value.passReqToCallback == first.options.passReqToCallback
  {
    var (options, fn) :=
      if first.VerifyFunction? then (Options(NoOptions), Func(first.id)) else (first, verify);
    if !Truthy(fn) then Err(TypeError(VerifyRequiredMessage))
    else if options.Nullish? then Err(UnreadableOptions)
    else
      var o := options.options;
      Ok(Config(
        FieldOr(o.usernameField, DefaultUsernameField),
        FieldOr(o.passwordField, DefaultPasswordField),
        StrategyName,
        fn,
        o.passReqToCallback))
  }

  /** The per-call options of `authenticate`; `None` when the argument is falsy (`options || {}`). */
  datatype AuthenticateOptions = AuthenticateOptions(badRequestMessage: Value)

  /** The info object of the missing-credentials failure: `{message: badRequestMessage ||
      'Missing credentials'}`. */
  function BadRequestInfo(options: Option<AuthenticateOptions>): (info: Value)
    ensures info.Obj? && info.props.Keys == {"message"}
    ensures options.Some? && Truthy(options.value.badRequestMessage) ==>
              info.props["message"] == options.value.badRequestMessage
    ensures !(options.Some? && Truthy(options.value.badRequestMessage)) ==>
              info.props["message"] == Str(MissingCredentialsMessage)
  {
    var message := if options.Some? then options.value.badRequestMessage else Undefined;
    Obj(map["message" := Or(message, Str(MissingCredentialsMessage))])
  }

  /** The inner `verified(err, user, info)`: a truthy `err` is an error whatever else came
      with it; else a falsy `user` is a failure carrying `info` and no status; else a success
      with `user` and `info`. */
  function Verified(err: Value, user: Value, info: Value): (o: Outcome)
    ensures o.Error? <==> Truthy(err)
    ensures o.Error? ==> o.err == err
    ensures o.Fail? <==> !Truthy(err) && !Truthy(user)
    ensures o.Fail? ==> o.info == info && o.status == None
    ensures o.Success? ==> o.user == user && o.info == info
  {
    if Truthy(err) then Error(err)
    else if !Truthy(user) then Fail(info, None)
    else Success(user, info)
  }

  /** The `try` around the verify call: a synchronous throw becomes an error carrying the
      thrown value; a completion goes through `verified`. */
  function Completion(v: VerifyResult): (o: Outcome)
    ensures v.Throws? ==> o == Error(v.exception)
    ensures v.Completes? ==> o == Verified(v.err, v.user, v.info)
  {
    match v
    case Throws(ex) => Error(ex)
    case Completes(err, user, info) => Verified(err, user, info)
  }

  /** One credential: `lookup(req.body, field) || lookup(req.query, field)`. */
  function Credential(req: Request, field: Fields): (v: Value)
    ensures v.Null? || IsScalar(v)
    ensures Truthy(FieldValue(req.body, field)) ==> v == FieldValue(req.body, field)
    ensures !Truthy(FieldValue(req.body, field)) ==> v == FieldValue(req.query, field)
  {
    Or(FieldValue(req.body, field), FieldValue(req.query, field))
  }

  /** A strategy instance. Its fields are set once by the constructor and never change. */
  class Strategy {
    const usernameField: Fields
    const passwordField: Fields
    const name: string
    const verify: Value
    const passReqToCallback: Value

    /** The instance fields as a value. */
    function Settings(): Config {
      Config(usernameField, passwordField, name, verify, passReqToCallback)
    }

    /** Assigns the instance fields that `Configure` computed. */
    constructor (c: Config)
      ensures Settings() == c
    {
      usernameField := c.usernameField;
      passwordField := c.passwordField;
      name := c.name;
      verify := c.verify;
      passReqToCallback := c.passReqToCallback;
    }

    /** `new Strategy(first, verify)`: a fresh strategy, or the error the constructor throws. */
    static method New(first: FirstArgument, verify: Value) returns (r: Result<Strategy, ConstructionError>)
      ensures r.Err? ==> Configure(first, verify) == Err(r.error)
      ensures r.Ok? ==> fresh(r.value) && Configure(first, verify) == Ok(r.value.Settings())
    {
      match Configure(first, verify)
      case Err(e) =>
        r := Err(e);
      case Ok(c) =>
        var s := new Strategy(c);
        r := Ok(s);
    }

    /** The verify call `authenticate` makes for a request, or `None` when it fails for
        missing credentials first. */
    function VerifyCall(req: Request): (c: Option<Call>)
      ensures c.None? <==> !Truthy(Credential(req, usernameField)) || !Truthy(Credential(req, passwordField))
      ensures c.Some? ==> c.value.username == Credential(req, usernameField) &&
                          c.value.password == Credential(req, passwordField)
      ensures c.Some? ==> IsScalar(c.value.username) && IsScalar(c.value.password)
      ensures c.Some? ==> (c.value.req == if Truthy(passReqToCallback) then Some(req) else None)
    {
      var username := Credential(req, usernameField);
      var password := Credential(req, passwordField);
      if !Truthy(username) || !Truthy(password) then None
      else Some(Call(if Truthy(passReqToCallback) then Some(req) else None, username, password))
    }

    /** `authenticate(req, options)` with the verify callback behaving as `verifyFn` does on
        the arguments it receives. */
    function Authenticate(req: Request, options: Option<AuthenticateOptions>,
                          verifyFn: Call -> VerifyResult): (o: Outcome)
      ensures o == Fail(BadRequestInfo(options), Some(BadRequestStatus)) <==>
                !Truthy(Credential(req, usernameField)) || !Truthy(Credential(req, passwordField))
      ensures o.Fail? && o.status.Some? <==> VerifyCall(req).None?
      ensures o.Success? ==>
                VerifyCall(req).Some? &&
                var v := verifyFn(VerifyCall(req).value);
                v.Completes? && !Truthy(v.err) && Truthy(v.user) && o == Success(v.user, v.info)
      ensures o.Error? ==>
                VerifyCall(req).Some? &&
                var v := verifyFn(VerifyCall(req).value);
                v == Throws(o.err) || (v.Completes? && v.err == o.err && Truthy(o.err))
    {
      match VerifyCall(req)
      case None => Fail(BadRequestInfo(options), Some(BadRequestStatus))
      case Some(call) => Completion(verifyFn(call))
    }
  }

  /* ---------------------------------------------------------------------------------------
     Construction
     --------------------------------------------------------------------------------------- */

  /** A function as first argument is the verify callback, the options are `{}`, and the
      second argument is ignored. */
  lemma FunctionFirstArgument(id: nat, verify: Value, other: Value)
    ensures Configure(VerifyFunction(id), verify) == Configure(Options(NoOptions), Func(id))
    ensures Configure(VerifyFunction(id), verify) == Configure(VerifyFunction(id), other)
  {
  }

  /** With no field options the fields are `username` and `password`, the name is `local`,
      and the request is not passed through. */
  lemma DefaultConfiguration(first: FirstArgument, verify: Value)
    requires first.VerifyFunction? || (first == Options(NoOptions) && Truthy(verify))
    ensures Configure(first, verify).Ok?
    ensures Configure(first, verify).value.usernameField == Name(DefaultUsernameField)
    ensures Configure(first, verify).value.passwordField == Name(DefaultPasswordField)
    ensures Configure(first, verify).value.name == StrategyName
    ensures !Truthy(Configure(first, verify).value.passReqToCallback)
  {
  }

  /** Non-empty field options replace the defaults, and `passReqToCallback` is kept as given. */
  lemma CustomFieldNames(o: StrategyOptions, verify: Value, username: string, password: string)
    requires o.usernameField == Some(Name(username)) && o.passwordField == Some(Name(password))
    requires username != "" && password != "" && Truthy(verify)
    ensures Configure(Options(o), verify).Ok?
    ensures Configure(Options(o), verify).value.usernameField == Name(username)
    ensures Configure(Options(o), verify).value.passwordField == Name(password)
    ensures Configure(Options(o), verify).value.passReqToCallback == o.passReqToCallback
  {
  }

  /** Construction succeeds exactly when a verify callback is present and the options can
      be read. */
  lemma ConstructionSucceeds(first: FirstArgument, verify: Value)
    ensures Configure(first, verify).Ok? <==>
              first.VerifyFunction? || (first.Options? && Truthy(verify))
  {
  }

  /* ---------------------------------------------------------------------------------------
     Authentication
     --------------------------------------------------------------------------------------- */

  /** The outcome depends on the verify callback only through what it does with the one
      call `authenticate` makes, and not at all when credentials are missing. */
  lemma VerifyConsultedOnce(s: Strategy, req: Request, options: Option<AuthenticateOptions>,
                            f: Call -> VerifyResult, g: Call -> VerifyResult)
    requires s.VerifyCall(req).None? || f(s.VerifyCall(req).value) == g(s.VerifyCall(req).value)
    ensures s.Authenticate(req, options, f) == s.Authenticate(req, options, g)
  {
  }

  /** The decision table for a request whose credentials are present. */
  lemma CompletionTable(s: Strategy, req: Request, options: Option<AuthenticateOptions>,
                        verifyFn: Call -> VerifyResult)
    requires s.VerifyCall(req).Some?
    ensures var v := verifyFn(s.VerifyCall(req).value);
            var o := s.Authenticate(req, options, verifyFn);
            (v.Throws? ==> o == Error(v.exception)) &&
            (v.Completes? && Truthy(v.err) ==> o == Error(v.err)) &&
            (v.Completes? && !Truthy(v.err) && !Truthy(v.user) ==> o == Fail(v.info, None)) &&
            (v.Completes? && !Truthy(v.err) && Truthy(v.user) ==> o == Success(v.user, v.info))
  {
  }

  /** A credential submitted as an object, with nothing for it in the query, fails like a
      missing one, and the verify callback is not called. */
  lemma CompositeCredentialRejected(s: Strategy, req: Request, options: Option<AuthenticateOptions>,
                                    verifyFn: Call -> VerifyResult, name: string)
    requires s.usernameField == Name(name) && PlainName(name)
    requires req.body.Obj? && Get(req.body, name).Obj?
    requires !Truthy(FieldValue(req.query, Name(name)))
    ensures s.Authenticate(req, options, verifyFn) == Fail(BadRequestInfo(options), Some(BadRequestStatus))
  {
    CompositeFieldIsNull(req.body, name);
    assert !Truthy(Credential(req, s.usernameField));
  }

  /** With plain field names, a body carrying non-empty strings under those names hands
      exactly those strings to verify, username first. */
  lemma BodyCredentialsCall(s: Strategy, req: Request, user: string, password: string)
    requires s.usernameField.Name? && s.passwordField.Name?
    requires PlainName(s.usernameField.name) && PlainName(s.passwordField.name)
    requires s.usernameField.name != s.passwordField.name
    requires !Truthy(s.passReqToCallback)
    requires user != "" && password != ""
    requires req.body == Obj(map[s.usernameField.name := Str(user), s.passwordField.name := Str(password)])
    ensures s.VerifyCall(req) == Some(Call(None, Str(user), Str(password)))
  {
    PlainFieldValue(req.body, s.usernameField.name);
    PlainFieldValue(req.body, s.passwordField.name);
  }

  /** A verify callback that accepts the body's credentials yields success with the user
      and the info it supplied. */
  lemma BodyCredentialsScenario(s: Strategy, req: Request, user: string, password: string,
                                verifyFn: Call -> VerifyResult, u: Value, info: Value)
    requires s.usernameField.Name? && s.passwordField.Name?
    requires PlainName(s.usernameField.name) && PlainName(s.passwordField.name)
    requires s.usernameField.name != s.passwordField.name
    requires !Truthy(s.passReqToCallback)
    requires user != "" && password != ""
    requires req.body == Obj(map[s.usernameField.name := Str(user), s.passwordField.name := Str(password)])
    requires verifyFn(Call(None, Str(user), Str(password))) == Completes(Null, u, info) && Truthy(u)
    ensures s.Authenticate(req, None, verifyFn) == Success(u, info)
  {
    BodyCredentialsCall(s, req, user, password);
  }

  /** Without a body, the credentials are read from the query. */
  lemma QueryCredentialsCall(s: Strategy, req: Request, user: string, password: string)
    requires s.usernameField.Name? && s.passwordField.Name?
    requires PlainName(s.usernameField.name) && PlainName(s.passwordField.name)
    requires s.usernameField.name != s.passwordField.name
    requires !Truthy(s.passReqToCallback)
    requires user != "" && password != ""
    requires req.body == Undefined
    requires req.query == Obj(map[s.usernameField.name := Str(user), s.passwordField.name := Str(password)])
    ensures s.VerifyCall(req) == Some(Call(None, Str(user), Str(password)))
  {
    PlainFieldValue(req.query, s.usernameField.name);
    PlainFieldValue(req.query, s.passwordField.name);
  }

  /** With the default configuration, a body with non-empty `username` and `password`
      strings hands exactly those strings to verify. */
  lemma DefaultBodyCredentialsCall(s: Strategy, req: Request, user: string, password: string)
    requires s.usernameField == Name(DefaultUsernameField) && s.passwordField == Name(DefaultPasswordField)
    requires !Truthy(s.passReqToCallback)
    requires user != "" && password != ""
    requires req.body == Obj(map[DefaultUsernameField := Str(user), DefaultPasswordField := Str(password)])
    ensures s.VerifyCall(req) == Some(Call(None, Str(user), Str(password)))
  {
    DefaultFieldNamesPlain();
    BodyCredentialsCall(s, req, user, password);
  }

  /** Once the verify call is known, the outcome is what its completion maps to. */
  lemma AuthenticateWithCall(s: Strategy, req: Request, options: Option<AuthenticateOptions>,
                             verifyFn: Call -> VerifyResult, c: Call)
    requires s.VerifyCall(req) == Some(c)
    ensures s.Authenticate(req, options, verifyFn) == Completion(verifyFn(c))
  {
  }

  /** The default field names are plain and distinct. */
  lemma DefaultFieldNamesPlain()
    ensures PlainName(DefaultUsernameField) && PlainName(DefaultPasswordField)
    ensures DefaultUsernameField != DefaultPasswordField
  {
  }

  /** A bracket-free name reads the property of that name when it holds a scalar. */
  lemma PlainFieldValue(root: Value, name: string)
    requires root.Obj? && PlainName(name) && IsScalar(Get(root, name))
    ensures FieldValue(root, Name(name)) == Get(root, name)
  {
    ChainOfPlainName(name);
    assert [name][0] == name;
  }
}
