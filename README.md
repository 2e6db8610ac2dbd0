# passport-local, modelled in Dafny

passport-local is the username-and-password strategy of the Passport authentication
framework for Node.js. This project models its three core pieces and proves properties
about them:

- `lookup(root, fields)` (lib/utils.js). It reads a form field from a request's `body` or
  `query`. A field name may use bracket notation, such as `user[username]`. The function may
  also receive a list of names, which are tried in order.
- The current `Strategy` (lib/strategy.js). The constructor fixes the field names, the
  verify callback and the `passReqToCallback` switch. `authenticate(req, options)` reads
  the two credentials, fails with status 400 when one is missing, calls the verify callback,
  and turns what the callback reports into exactly one of the framework actions `success`,
  `fail` or `error`.
- The legacy `Strategy(verify)` (lib/passport-local/strategy.js). It reads only
  `req.body.username` and `req.body.password`. It ignores the callback's `info`, and it does
  not catch a callback that throws.

Modules:

- `Wrappers` holds `Option` and `Result`.
- `JsValue` holds the JavaScript values the code inspects: `undefined`, `null`, booleans,
  numbers, strings, functions and objects. It also defines truthiness, `||` and property
  reads.
- `PassportActions` holds the request, the arguments handed to verify (`Call`), what the
  verify callback does (`VerifyResult`: it throws, or completes with `err, user, info`) and
  the framework action (`Outcome`).
- `Utils` models lookup.
- `LocalStrategy` and `LegacyLocalStrategy` model the two strategies.

`lookup` is imperative in the source: two nested loops, a `break` and an early `return`.
`Utils.Lookup` keeps the outer loop, and its inner loop is `Utils.WalkChain`. Both are
proved equal to recursive specification functions:

- `Split` / `Join` / `Chain` parse the key chain;
- `Walk` follows one chain;
- `Resolve` tries the candidates in order;
- `FieldValue` is the whole lookup.

The strategies' constructors set their fields once. They are classes with `const` fields
and a static `New` that returns the new instance or the error the constructor throws. The
verify callback is a parameter `verifyFn: Call -> VerifyResult`. `Authenticate` is a pure
function from the instance, the request, the options and `verifyFn` to an `Outcome`. For
the legacy strategy it returns a `Reaction`, which can also be "the exception propagates".

## Model

| member | source | states |
|---|---|---|
| Utils.Candidates | lib/utils.js:4-6 | a single name is tried as the one-element list holding it; a list is tried as given |
| Utils.Split | lib/utils.js:11 | `split` on one character gives at least one piece, and no piece contains the separator |
| Utils.Join | lib/utils.js:11 | `parts.join(sep)` begins with the first part, and every character of it comes from a part or from the separator |
| Utils.Strip | lib/utils.js:11 | the stripped string contains no `c`, and every character in it comes from the input |
| Utils.SplitThenJoin | lib/utils.js:11 | joining the pieces of a split with the same separator gives back the string |
| Utils.JoinThenSplit | lib/utils.js:11 | splitting a join of separator-free pieces gives back the pieces |
| Utils.SplitThenJoinEmpty | lib/utils.js:11 | `split(']').join('')` removes every `]` and keeps the other characters in order |
| Utils.ChainKeys | lib/utils.js:11 | no key of a chain holds a bracket, and the keys joined with `[` are the field name with its `]` removed |
| Utils.Chain | lib/utils.js:11 | a field name gives at least one key; `ChainKeys`, `ChainOfPath` and `ChainOfPlainName` pin the keys |
| Utils.ChainOfPlainName | lib/utils.js:11 | a bracket-free name is a chain of one key, itself |
| Utils.ChainOfPath | lib/utils.js:11 | parsing `k0[k1]...[kn]` gives back the keys `k0 ... kn` |
| Utils.ChainOfNestedFormField | test/strategy.fields.test.js:47-83 | `user[username]` is the chain `["user", "username"]` |
| Utils.Walk | lib/utils.js:12-17 | a value found along a chain is never `null`, `undefined` or an object |
| Utils.Resolve | lib/utils.js:8-19 | the result of trying the candidates is `null` or a value that is not an object |
| Utils.FieldValue | lib/utils.js:1-20 | a falsy root gives `null` whatever fields are asked for; the result is never a composite |
| Utils.WalkChain | lib/utils.js:12-17 | the inner loop returns what `Walk` gives for the chain: the first non-object value, or nothing |
| Utils.Lookup | lib/utils.js:1-20 | the two nested loops compute `FieldValue(root, fields)` |
| Utils.WalkStep | lib/utils.js:13-16 | one inner step reads the next key and then stops at a nullish value, returns a scalar, or descends |
| Utils.ResolveStep | lib/utils.js:8-18 | one outer step takes the current candidate's value if its chain resolves, and otherwise goes on with the next |
| Utils.SingleNameIsOneElementList | lib/utils.js:4-6 | a single name and the one-element list holding it give the same result |
| Utils.WalkStopsAtScalar | lib/utils.js:15 | once a chain meets a non-object value, keys after it make no difference |
| Utils.WalkThroughObjects | lib/utils.js:12-17 | a chain whose every step reads an object yields nothing for its field |
| Utils.WalkAbandonsAtNullish | lib/utils.js:14 | a `null` or `undefined` step after objects abandons the field |
| Utils.WalkIsFirstScalar | lib/utils.js:12-17 | the value found is the first step that is not an object, after object-only steps |
| Utils.ResolveAppend | lib/utils.js:8-18 | the earlier candidates win; later ones are tried only when all earlier ones give nothing |
| Utils.ResolveNull | lib/utils.js:8-19 | the result is `null` exactly when no candidate's chain resolves |
| Utils.ResolveFirst | lib/utils.js:8-18 | the result is the value of the first candidate that resolves |
| Utils.ResolveHasWitness | lib/utils.js:8-18 | a non-null result is the value of some candidate, and all candidates before it give nothing |
| Utils.FirstResolving | lib/utils.js:8-18 | the position of the candidate a non-null result comes from, with all earlier candidates failing |
| Utils.PathLookup | lib/utils.js:11-17 | a bracket-notation name through objects reads the scalar at the end of its keys |
| Utils.CompositeFieldIsNull | lib/utils.js:15-19 | a plain name under which an object is stored gives `null` |
| JsValue.Truthy | lib/utils.js:2 | `!!v`: `null` and `undefined` are falsy; objects and functions are truthy |
| JsValue.Get | lib/utils.js:13 | `obj[key]` is the stored property of an object, and `undefined` for a missing key or a value that is not an object |
| JsValue.Or | lib/strategy.js:86-87 | the or-operator gives `a` when `a` is truthy, otherwise `b` |
| LocalStrategy.FieldOr | lib/strategy.js:49-50 | a truthy field option is kept; otherwise the default name is used |
| LocalStrategy.Configure | lib/strategy.js:42-61 | a function first argument is the callback with the default fields and no `passReqToCallback`; a falsy callback throws the fixed `TypeError`; unreadable options throw; with options, each field is `option \|\| default` and `passReqToCallback` is kept as given; a success is named `local`, with truthy fields and callback |
| LocalStrategy.Strategy.constructor | lib/strategy.js:49-60 | the instance fields are those that were computed |
| LocalStrategy.Strategy.New | lib/strategy.js:42-61 | a fresh instance whose fields are `Configure`'s, or `Configure`'s error |
| LocalStrategy.BadRequestInfo | lib/strategy.js:90 | the info holds only `message`: a truthy `badRequestMessage`, else `Missing credentials` |
| LocalStrategy.Verified | lib/strategy.js:95-99 | error exactly when `err` is truthy; failure with `info` and no status exactly when there is no error and `user` is falsy; success otherwise, with `user` and `info` |
| LocalStrategy.Completion | lib/strategy.js:101-109 | a throw becomes an error carrying the thrown value; a completion goes through `verified` |
| LocalStrategy.Credential | lib/strategy.js:86-87 | the body's value when it is truthy, else the query's; it is `null` or a scalar |
| LocalStrategy.Strategy.VerifyCall | lib/strategy.js:86-106 | verify is called exactly when both credentials are truthy; it receives those credentials, and the request only with `passReqToCallback` |
| LocalStrategy.FunctionFirstArgument | lib/strategy.js:43-46 | a function first argument is the callback with options `{}`, and the second argument is ignored |
| LocalStrategy.DefaultConfiguration | lib/strategy.js:49-60 | without field options the fields are `username` and `password`, the name is `local`, and the request is not passed |
| LocalStrategy.CustomFieldNames | test/strategy.fields.test.js:10-45 | non-empty field options replace the defaults, and `passReqToCallback` is kept |
| LocalStrategy.ConstructionSucceeds | lib/strategy.js:42-50 | construction succeeds exactly when a callback is present and the options can be read |
| LocalStrategy.Strategy.Authenticate | lib/strategy.js:84-110 | the bad-request failure with status 400 happens exactly when a credential is falsy, and it is the only outcome with a status; a success carries the truthy user and the info of a completion without error; an error carries what verify threw or the truthy `err` it completed with |
| LocalStrategy.VerifyConsultedOnce | lib/strategy.js:89-109 | the outcome depends on verify only through its one call, and not at all when credentials are missing |
| LocalStrategy.CompletionTable | lib/strategy.js:95-109 | the full decision table once the credentials are present |
| LocalStrategy.CompositeCredentialRejected | test/strategy.invalid-credentials-types.test.js:10-35 | an object posted as the username fails as missing credentials, and verify is not called |
| LocalStrategy.BodyCredentialsCall | lib/strategy.js:86-105 | non-empty body strings under the configured names are what verify receives, username first |
| LocalStrategy.BodyCredentialsScenario | test/strategy.normal.test.js:10-45 | a callback accepting the body's credentials gives success with its user and info |
| LocalStrategy.QueryCredentialsCall | test/strategy.normal.test.js:47-82 | without a body, the credentials come from the query |
| LocalStrategy.DefaultBodyCredentialsCall | lib/strategy.js:49-50 | with the defaults, `body.username` and `body.password` are what verify receives |
| LocalStrategy.AuthenticateWithCall | lib/strategy.js:101-109 | once the verify call is known, the outcome is its completion |
| LocalStrategy.PlainFieldValue | lib/utils.js:11-15 | a bracket-free name reads the property of that name when it holds a scalar |
| LegacyLocalStrategy.LegacyCall | lib/passport-local/strategy.js:52-57 | verify is called exactly when the body and both of its properties are truthy, with `body.username` and `body.password` |
| LegacyLocalStrategy.LegacyCompletion | lib/passport-local/strategy.js:60-64 | error exactly when `err` is truthy; bare failure exactly when there is no error and `user` is falsy; success with the user only otherwise |
| LegacyLocalStrategy.Strategy.constructor | lib/passport-local/strategy.js:36-37 | the name is `local` and the callback is stored |
| LegacyLocalStrategy.Strategy.New | lib/passport-local/strategy.js:32-38 | a falsy callback throws the fixed message; otherwise a fresh instance |
| LegacyLocalStrategy.Strategy.Authenticate | lib/passport-local/strategy.js:51-65 | missing credentials give a bare failure; the exception propagates exactly when verify throws; a failure never carries info or status; a success carries the truthy user of an error-free completion and no info; an error carries the truthy `err` |
| LegacyLocalStrategy.MissingCredentials | lib/passport-local/strategy.js:52-54 | with missing credentials the reaction does not depend on verify |
| LegacyLocalStrategy.BodyOnly | lib/passport-local/strategy.js:52-57 | the query and the headers never matter |
| LegacyLocalStrategy.ForwardsComposite | lib/passport-local/strategy.js:56-60 | an object username is passed to verify as it is |
| LegacyLocalStrategy.CompletionTable | lib/passport-local/strategy.js:60-64 | the decision table: a throw propagates, then error, fail and success |
| LegacyLocalStrategy.InfoIgnored | lib/passport-local/strategy.js:60 | the info a completion supplies never reaches the framework |
| LegacyLocalStrategy.LegacyBodyCall | test/strategy-test.js:19-56 | a body with non-empty string credentials hands those strings to verify |
| LegacyLocalStrategy.CompletionsAgree | lib/passport-local/strategy.js:61-63 | the legacy completion is the current `verified` with no info |
| LegacyLocalStrategy.AgreesWithCurrent | lib/passport-local/strategy.js:51-65 | for body string credentials and a completion without info, both strategies report the same action |

## Left out

- Numbers are unbounded integers. Floating point, `NaN` and `-0` are not modelled.
- Property reads follow no prototype chain and no getters. Reading a property of a value
  that is not an object gives `undefined`. In JavaScript, `"abc"[0]` or `"abc".length`
  would give a value.
- A `fields` argument that is neither a string nor an array of strings is not modelled. The
  source would fail on `field.split` or read a `length` property of it.
- Arrays are objects whose keys are strings. `length` and numeric-key conversion are not
  modelled.
- The verify callback is one abstract result per call. The source's asynchrony is not
  modelled. The source also does not guard against a callback that completes twice, or
  completes and then throws. So "exactly one action" holds only under this modelling.
- The `passport-strategy` / `passport` base class and its `success`, `fail` and `error`
  methods are not part of this model. They appear as the `Outcome` values.
- lib/index.js and the example applications are not part of this model.
- LocalStrategy.ConstructionError: the `TypeError` the engine throws on reading a property
  of `undefined` or `null` options carries no message in the model.
- LocalStrategy.FirstArgument has no case for a first argument that is a non-function
  scalar, such as `false`, `0` or a string. JavaScript reads every property of such a value
  as `undefined`, so the constructor treats it as `{}`. The model reaches that case only
  through `Options(NoOptions)`.
- Where the tests and the code disagree, the model follows the code:
  - test/strategy.normal.test.js:84-181 expects the verify callback's failure message for a
    request without credentials. lib/strategy.js:89-91 fails with `Missing credentials`
    before verify is called.
  - test/strategy.test.js:15-16 expects a configurable name. lib/strategy.js:58 always sets
    `local`.
  - test/strategy.options.test.js:37-53 passes `params` that `authenticate` never reads.
  - test/strategy-test.js:58-95 passes custom field names to the legacy one-argument
    constructor, which takes the options object as the callback.
  - test/strategy-test.js:36,75,114,153 override `strategy._verify`, but the legacy code
    calls `this.verify` (lib/passport-local/strategy.js:60). With this code those overrides
    are never reached.
  - test/index-test.js expects a `version` export that is not part of this model.
- A legacy callback that is truthy but not a function throws when `authenticate` calls it.
  The model treats every truthy `verify` as callable.
