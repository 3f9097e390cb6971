/**
 * Field resolution (`SetupGenerator.prompt_for_info` and `get_git_info`): each configured field,
 * in the configuration's order, gets a default (the configured one, or for `name` the working
 * directory's last path component, for `author`/`author_email` the git identity), the user's
 * answer or that default is taken, and an answer holding a comma becomes the list of its pieces.
 *
 * The outside world is passed in: the working directory path, what the two
 * `git config user.<field>` runs would produce, and the answers typed at the prompts.
 */
module Resolver {
  import opened Wrappers
  import opened PyStr
  import opened PyValues

  /** What running `git config user.<field>` does. */
  datatype GitProbe =
    | Printed(stdout: string)  // exit status 0, with this standard output
    | ExitedNonZero            // CalledProcessError, e.g. the key is not configured
    | NotInstalled             // the `git` executable cannot be started

  /** Everything the resolver reads besides the configuration and the answers. */
  datatype Environment = Environment(cwd: string, gitName: GitProbe, gitEmail: GitProbe)

  /**
   * One entry of the `prompts` object: its `text` and its optional `default` (a string, a list
   * of strings or `null`).
   */
  datatype FieldSpec = FieldSpec(text: Option<string>, default: Option<Value>)

  predicate Distinct(keys: seq<string>) {
    forall i, j :: 0 <= i < j < |keys| ==> keys[i] != keys[j]
  }

  /** The keys of a list of entries, in order. */
  function KeySeq(entries: seq<(string, FieldSpec)>): seq<string> {
    seq(|entries|, k requires 0 <= k < |entries| => entries[k].0)
  }

  /** The `prompts` dictionary: its entries in insertion order, keys unique. */
  type Prompts = entries: seq<(string, FieldSpec)> | Distinct(KeySeq(entries))

  /** The decoded configuration document; only its `prompts` member is read. */
  datatype Config = Config(prompts: Option<Prompts>)

  /**
   * One answer typed at a prompt: `None`, like `Some("")`, is a bare Enter. When the answers run
   * out, the prompt meets end of input.
   */
  type Answer = Option<string>

  function KeysOf(prompts: Prompts): set<string> {
    set k | 0 <= k < |prompts| :: prompts[k].0
  }

  /**
   * `get_git_info`: the stripped output, or `None` when git exits with an error or prints only
   * whitespace; a missing git executable is not caught.
   */
  function GitInfo(probe: GitProbe): (r: Result<Option<string>, Exception>)
    ensures r.Failure? <==> probe.NotInstalled?
    ensures r.Failure? ==> r.error == GitNotFound
    ensures r == Success(None) <==> probe.ExitedNonZero? || (probe.Printed? && AllSpace(probe.stdout))
    ensures r.Success? && r.value.Some? ==>
      var t := r.value.value;
      t != "" && !IsSpace(t[0]) && !IsSpace(t[|t| - 1]) && probe.Printed?
      && SpaceFramed(probe.stdout, t)
  {
    match probe
    case NotInstalled => Failure(GitNotFound)
    case ExitedNonZero => Success(None)
    case Printed(out) =>
      var t := Strip(out);
      StripSlice(out);
      if t == "" then Success(None) else Success(Some(t))
  }

  /** The git answer as the Python value assigned to `default_value`. */
  function GitDefault(probe: GitProbe): Result<Value, Exception> {
    var info :- GitInfo(probe);
    Success(if info.Some? then Str(info.value) else Null)
  }

  /** `prompt_config.get('default', '')` */
  function ConfiguredDefault(spec: FieldSpec): Value {
    spec.default.GetOr(Str(""))
  }

  /** The keys whose falsy default is replaced from the environment. */
  const FallbackKeys: set<string> := {"name", "author", "author_email"}

  /**
   * The default offered for field `key`. A truthy configured default always wins; only when it
   * is falsy (absent, empty, an empty list or null) does `name` take `packageName` (the working
   * directory's basename, computed once before the loop), and `author` and `author_email` the
   * git identity. Git is run only then, so only then can a missing git executable fail the
   * field, and what it raises is the uncaught `GitNotFound`.
   */
  function FieldDefault(key: string, spec: FieldSpec, packageName: string, env: Environment)
    : (r: Result<Value, Exception>)
    ensures Truthy(ConfiguredDefault(spec)) ==> r == Success(ConfiguredDefault(spec))
    ensures key !in FallbackKeys ==> r == Success(ConfiguredDefault(spec))
    ensures key == "name" && !Truthy(ConfiguredDefault(spec)) ==> r == Success(Str(packageName))
    ensures key == "author" && !Truthy(ConfiguredDefault(spec))
      && env.gitName.Printed? && !AllSpace(env.gitName.stdout)
      ==> r == Success(Str(Strip(env.gitName.stdout)))
    ensures key == "author" && !Truthy(ConfiguredDefault(spec))
      && (env.gitName.ExitedNonZero? || (env.gitName.Printed? && AllSpace(env.gitName.stdout)))
      ==> r == Success(Null)
    ensures key == "author_email" && !Truthy(ConfiguredDefault(spec))
      && env.gitEmail.Printed? && !AllSpace(env.gitEmail.stdout)
      ==> r == Success(Str(Strip(env.gitEmail.stdout)))
    ensures key == "author_email" && !Truthy(ConfiguredDefault(spec))
      && (env.gitEmail.ExitedNonZero? || (env.gitEmail.Printed? && AllSpace(env.gitEmail.stdout)))
      ==> r == Success(Null)
    ensures r.Failure? <==>
      !Truthy(ConfiguredDefault(spec))
      && ((key == "author" && env.gitName.NotInstalled?)
          || (key == "author_email" && env.gitEmail.NotInstalled?))
    ensures r.Failure? ==> r.error == GitNotFound
  {
    var d := ConfiguredDefault(spec);
    if key == "name" && !Truthy(d) then Success(Str(packageName))
    else if key == "author" && !Truthy(d) then GitDefault(env.gitName)
    else if key == "author_email" && !Truthy(d) then GitDefault(env.gitEmail)
    else Success(d)
  }

  /**
   * The default as the prompt offers it: a list joined with ", ", anything else through `str()`
   * (so `None` is offered as the text "None").
   */
  function Presented(d: Value): (r: string)
    ensures d.Str? ==> r == d.s
    ensures d.Null? ==> r == "None"
    ensures d.List? && d.items == [] ==> r == ""
    ensures d.List? && d.items != [] ==> r == Join([d.items[0]] + PrefixEach(" ", d.items[1..]), ",")
  {
    if d.List? then
      assert d.items != [] ==>
        Join(d.items, ", ") == Join([d.items[0]] + PrefixEach(" ", d.items[1..]), ",") by {
        if d.items != [] {
          JoinPaddedSeparator(d.items, ',', " ");
          assert [','] + " " == ", ";
        }
      }
      Join(d.items, ", ")
    else ToStr(d)
  }

  /**
   * `click.prompt`: an empty answer accepts the offered default, any other answer is taken as
   * typed; so the accepted text is empty only when the offered default is.
   */
  function Accept(answer: Answer, presented: string): (r: string)
    ensures answer.None? || answer.value == "" ==> r == presented
    ensures answer.Some? && answer.value != "" ==> r == answer.value
    ensures r == "" ==> presented == ""
  {
    if answer.None? || answer.value == "" then presented else answer.value
  }

  /**
   * An accepted answer holding a comma becomes the list of its comma-separated pieces, untrimmed;
   * any other answer stays a string. No information is lost: joining the pieces with ","
   * gives back the answer.
   */
  function Normalize(answer: string): (r: Value)
    ensures r.Str? <==> ',' !in answer
    ensures r.Str? ==> r.s == answer
    ensures r.List? ==>
      |r.items| == CountChar(answer, ',') + 1 && |r.items| >= 2
      && (forall k :: 0 <= k < |r.items| ==> ',' !in r.items[k])
      && Join(r.items, ",") == answer
    ensures !r.Null?
  {
    if ',' in answer then
      CountCharPositive(answer, ',');
      JoinSplit(answer, ',');
      List(Split(answer, ','))
    else Str(answer)
  }

  /**
   * The value field `key` resolves to when it is the `i`-th prompt, `packageName` being the
   * working directory's basename: its default is computed, its `text` looked up, answer `i`
   * read and normalised. The default comes first, so git's exception wins over a missing
   * `text`, which wins over end of input (`Abort`). A resolved field is never `None`.
   */
  function ResolveField(key: string, spec: FieldSpec, packageName: string, env: Environment,
                        answers: seq<Answer>, i: nat): (r: Result<Value, Exception>)
    ensures r.Success? <==>
      FieldDefault(key, spec, packageName, env).Success? && spec.text.Some? && i < |answers|
    ensures FieldDefault(key, spec, packageName, env).Failure? ==>
      r == Failure(FieldDefault(key, spec, packageName, env).error)
    ensures FieldDefault(key, spec, packageName, env).Success? && spec.text.None? ==>
      r == Failure(KeyError("text"))
    ensures FieldDefault(key, spec, packageName, env).Success? && spec.text.Some? && i >= |answers| ==>
      r == Failure(Abort)
    ensures r.Success? ==> !r.value.Null?
  {
    var d :- FieldDefault(key, spec, packageName, env);
    if spec.text.None? then Failure(KeyError("text"))
    else if i >= |answers| then Failure(Abort)
    else Success(Normalize(Accept(answers[i], Presented(d))))
  }

  /** What each field resolves to on its own, field `k` reading answer `k`. */
  function FieldResults(prompts: Prompts, env: Environment, answers: seq<Answer>)
    : seq<Result<Value, Exception>>
  {
    seq(|prompts|, k requires 0 <= k < |prompts| =>
      ResolveField(prompts[k].0, prompts[k].1, Basename(env.cwd), env, answers, k))
  }

  /**
   * The dictionary built from the first `n` field results, or the exception of the earliest
   * failing one.
   */
  function Collect(keys: seq<string>, results: seq<Result<Value, Exception>>, n: nat)
    : Result<map<string, Value>, Exception>
    requires n <= |keys| == |results|
  {
    if n == 0 then Success(map[])
    else
      var m :- Collect(keys, results, n - 1);
      var v :- results[n - 1];
      Success(m[keys[n - 1] := v])
  }

  /** Once a field has failed, every longer prefix fails with the same exception. */
  lemma {:induction false} FailurePersists(keys: seq<string>, results: seq<Result<Value, Exception>>,
                                           n: nat, m: nat)
    requires n <= m <= |keys| == |results|
    requires Collect(keys, results, n).Failure?
    ensures Collect(keys, results, m) == Collect(keys, results, n)
  {
    if m > n {
      FailurePersists(keys, results, n, m - 1);
    }
  }

  function FirstKeys(keys: seq<string>, n: nat): set<string>
    requires n <= |keys|
  {
    set k | 0 <= k < n :: keys[k]
  }

  /** The fold succeeds exactly when every one of its field results does. */
  lemma {:induction false} CollectSucceedsIff(keys: seq<string>,
                                              results: seq<Result<Value, Exception>>, n: nat)
    requires n <= |keys| == |results|
    ensures Collect(keys, results, n).Success? <==> forall k :: 0 <= k < n ==> results[k].Success?
  {
    if n > 0 {
      CollectSucceedsIff(keys, results, n - 1);
    }
  }

  /** A successful fold holds one entry per key, each the result of that key's own field. */
  lemma {:induction false} CollectEntries(keys: seq<string>,
                                          results: seq<Result<Value, Exception>>, n: nat)
    requires n <= |keys| == |results|
    requires Distinct(keys)
    requires Collect(keys, results, n).Success?
    ensures Collect(keys, results, n).value.Keys == FirstKeys(keys, n)
    ensures forall k :: 0 <= k < n ==>
      results[k] == Success(Collect(keys, results, n).value[keys[k]])
  {
    if n > 0 {
      CollectSucceedsIff(keys, results, n);
      CollectEntries(keys, results, n - 1);
      var m := Collect(keys, results, n - 1).value;
      assert Collect(keys, results, n).value == m[keys[n - 1] := results[n - 1].value];
      assert FirstKeys(keys, n) == FirstKeys(keys, n - 1) + {keys[n - 1]};
    }
  }

  /** A failed fold reports the exception of the earliest failing field. */
  lemma {:induction false} CollectFirstFailure(keys: seq<string>,
                                               results: seq<Result<Value, Exception>>, n: nat)
    requires n <= |keys| == |results|
    requires Collect(keys, results, n).Failure?
    ensures exists k :: 0 <= k < n && results[k] == Failure(Collect(keys, results, n).error)
                        && (forall j :: 0 <= j < k ==> results[j].Success?)
  {
    if Collect(keys, results, n - 1).Failure? {
      CollectFirstFailure(keys, results, n - 1);
    } else {
      CollectSucceedsIff(keys, results, n - 1);
    }
  }

  lemma {:induction false} DistinctKeysCount(keys: seq<string>, n: nat)
    requires n <= |keys|
    requires Distinct(keys)
    ensures |FirstKeys(keys, n)| == n
  {
    if n > 0 {
      DistinctKeysCount(keys, n - 1);
      assert FirstKeys(keys, n) == FirstKeys(keys, n - 1) + {keys[n - 1]};
      assert keys[n - 1] !in FirstKeys(keys, n - 1);
    }
  }

  /** `prompt_for_info` as a function of its inputs. */
  function Resolve(config: Config, env: Environment, answers: seq<Answer>)
    : Result<map<string, Value>, Exception>
  {
    match config.prompts
    case None => Failure(KeyError("prompts"))
    case Some(prompts) => Collect(KeySeq(prompts), FieldResults(prompts, env, answers), |prompts|)
  }

  /**
   * The default-selection part of one iteration of `prompt_for_info`: the configured default,
   * replaced when falsy for `name`, `author` and `author_email`, running git only then.
   */
  method ComputeDefault(key: string, spec: FieldSpec, defaultPackageName: string, env: Environment)
    returns (r: Result<Value, Exception>)
    ensures r == FieldDefault(key, spec, defaultPackageName, env)
  {
    var defaultValue := ConfiguredDefault(spec);
    if key == "name" && !Truthy(defaultValue) {
      defaultValue := Str(defaultPackageName);
    }
    if key == "author" && !Truthy(defaultValue) {
      var info := GitInfo(env.gitName);
      if info.Failure? {
        return Failure(info.error);
      }
      defaultValue := if info.value.Some? then Str(info.value.value) else Null;
    }
    if key == "author_email" && !Truthy(defaultValue) {
      var info := GitInfo(env.gitEmail);
      if info.Failure? {
        return Failure(info.error);
      }
      defaultValue := if info.value.Some? then Str(info.value.value) else Null;
    }
    return Success(defaultValue);
  }

  /**
   * Completeness: a successful resolution has exactly one entry per configured key, and the
   * entry of the `k`-th key is what that field resolves to when it reads the `k`-th answer.
   */
  lemma ResolveEntries(config: Config, env: Environment, answers: seq<Answer>)
    requires Resolve(config, env, answers).Success?
    ensures config.prompts.Some?
    ensures var prompts, m := config.prompts.value, Resolve(config, env, answers).value;
      m.Keys == KeysOf(prompts) && |m| == |prompts|
      && forall k :: 0 <= k < |prompts| ==>
           ResolveField(prompts[k].0, prompts[k].1, Basename(env.cwd), env, answers, k)
           == Success(m[prompts[k].0])
  {
    ResolveKeys(config, env, answers);
    ResolveValues(config, env, answers);
  }

  lemma ResolveKeys(config: Config, env: Environment, answers: seq<Answer>)
    requires Resolve(config, env, answers).Success?
    ensures config.prompts.Some?
    ensures var prompts, m := config.prompts.value, Resolve(config, env, answers).value;
      m.Keys == KeysOf(prompts) && |m| == |prompts|
  {
    var prompts := config.prompts.value;
    var keys, results := KeySeq(prompts), FieldResults(prompts, env, answers);
    assert Distinct(keys);
    CollectEntries(keys, results, |prompts|);
    DistinctKeysCount(keys, |prompts|);
    FirstKeysOf(prompts);
  }

  /** All of the key sequence's keys are the keys of `prompts`. */
  lemma FirstKeysOf(prompts: Prompts)
    ensures FirstKeys(KeySeq(prompts), |prompts|) == KeysOf(prompts)
  {
    var keys := KeySeq(prompts);
    forall x | x in FirstKeys(keys, |prompts|) ensures x in KeysOf(prompts) {
      var k :| 0 <= k < |prompts| && keys[k] == x;
      assert prompts[k].0 == x;
    }
    forall x | x in KeysOf(prompts) ensures x in FirstKeys(keys, |prompts|) {
      var k :| 0 <= k < |prompts| && prompts[k].0 == x;
      assert keys[k] == x;
    }
  }

  lemma ResolveValues(config: Config, env: Environment, answers: seq<Answer>)
    requires Resolve(config, env, answers).Success?
    ensures config.prompts.Some?
    ensures var prompts, m := config.prompts.value, Resolve(config, env, answers).value;
      forall k :: 0 <= k < |prompts| ==>
        prompts[k].0 in m
        && ResolveField(prompts[k].0, prompts[k].1, Basename(env.cwd), env, answers, k)
           == Success(m[prompts[k].0])
  {
    var prompts := config.prompts.value;
    var keys, results := KeySeq(prompts), FieldResults(prompts, env, answers);
    var m := Resolve(config, env, answers).value;
    assert Distinct(keys);
    CollectEntries(keys, results, |prompts|);
    forall k | 0 <= k < |prompts|
      ensures prompts[k].0 in m
      ensures ResolveField(prompts[k].0, prompts[k].1, Basename(env.cwd), env, answers, k)
              == Success(m[prompts[k].0])
    {
      assert results[k]
        == ResolveField(prompts[k].0, prompts[k].1, Basename(env.cwd), env, answers, k);
      assert keys[k] == prompts[k].0;
    }
  }

  /** Resolution succeeds exactly when `prompts` is present and every field resolves. */
  lemma ResolveSucceedsIff(config: Config, env: Environment, answers: seq<Answer>)
    ensures Resolve(config, env, answers).Success? <==>
      config.prompts.Some?
      && forall k :: 0 <= k < |config.prompts.value| ==>
           ResolveField(config.prompts.value[k].0, config.prompts.value[k].1, Basename(env.cwd),
                        env, answers, k).Success?
  {
    if config.prompts.Some? {
      var prompts := config.prompts.value;
      var results := FieldResults(prompts, env, answers);
      CollectSucceedsIff(KeySeq(prompts), results, |prompts|);
      assert forall k :: 0 <= k < |prompts| ==>
        results[k] == ResolveField(prompts[k].0, prompts[k].1, Basename(env.cwd), env, answers, k);
    }
  }

  /**
   * A failed resolution raises `KeyError('prompts')` when the configuration has no prompts, and
   * otherwise the exception of the first field, in prompt order, that fails.
   */
  lemma ResolveFirstFailure(config: Config, env: Environment, answers: seq<Answer>)
    requires Resolve(config, env, answers).Failure?
    ensures var e := Resolve(config, env, answers).error;
      (config.prompts.None? && e == KeyError("prompts"))
      || (config.prompts.Some?
          && exists k :: 0 <= k < |config.prompts.value|
               && ResolveField(config.prompts.value[k].0, config.prompts.value[k].1, Basename(env.cwd),
                               env, answers, k) == Failure(e)
               && forall j :: 0 <= j < k ==>
                    ResolveField(config.prompts.value[j].0, config.prompts.value[j].1, Basename(env.cwd),
                                 env, answers, j).Success?)
  {
    if config.prompts.Some? {
      var prompts := config.prompts.value;
      var results := FieldResults(prompts, env, answers);
      var e := Resolve(config, env, answers).error;
      CollectFirstFailure(KeySeq(prompts), results, |prompts|);
      var k :| 0 <= k < |prompts| && results[k] == Failure(e)
               && (forall j :: 0 <= j < k ==> results[j].Success?);
      assert ResolveField(prompts[k].0, prompts[k].1, Basename(env.cwd), env, answers, k) == Failure(e);
      assert forall j :: 0 <= j < k ==>
        results[j] == ResolveField(prompts[j].0, prompts[j].1, Basename(env.cwd), env, answers, j);
    }
  }

  /** A bare Enter accepts the offered default, kept as a string when it has no comma. */
  lemma EnterAcceptsDefault(key: string, spec: FieldSpec, packageName: string, env: Environment,
                            answers: seq<Answer>, i: nat)
    requires FieldDefault(key, spec, packageName, env).Success? && spec.text.Some?
    requires i < |answers| && (answers[i] == None || answers[i] == Some(""))
    requires ',' !in Presented(FieldDefault(key, spec, packageName, env).value)
    ensures ResolveField(key, spec, packageName, env, answers, i)
            == Success(Str(Presented(FieldDefault(key, spec, packageName, env).value)))
  {
  }

  /** A typed answer replaces the default whatever the default was. */
  lemma TypedAnswerWins(key: string, spec: FieldSpec, packageName: string, env: Environment,
                        answers: seq<Answer>, i: nat)
    requires FieldDefault(key, spec, packageName, env).Success? && spec.text.Some?
    requires i < |answers| && answers[i].Some? && answers[i].value != ""
    ensures ResolveField(key, spec, packageName, env, answers, i)
            == Success(Normalize(answers[i].value))
  {
  }

  /**
   * A list default of two or more comma-free items, accepted with Enter, comes back as a list
   * whose items after the first carry a leading space: the ", " join and the "," split do not
   * undo each other, so the configured list is not recovered.
   */
  lemma ListDefaultResplit(key: string, spec: FieldSpec, packageName: string, env: Environment,
                           answers: seq<Answer>, i: nat, xs: seq<string>)
    requires spec.default == Some(List(xs)) && spec.text.Some?
    requires |xs| >= 2 && forall k :: 0 <= k < |xs| ==> ',' !in xs[k]
    requires i < |answers| && (answers[i] == None || answers[i] == Some(""))
    ensures ResolveField(key, spec, packageName, env, answers, i)
            == Success(List([xs[0]] + PrefixEach(" ", xs[1..])))
    ensures ResolveField(key, spec, packageName, env, answers, i) != Success(List(xs))
  {
    var ys := [xs[0]] + PrefixEach(" ", xs[1..]);
    assert FieldDefault(key, spec, packageName, env) == Success(List(xs));
    JoinPaddedSeparator(xs, ',', " ");
    assert [','] + " " == ", ";
    var joined := Join(ys, ",");
    assert Presented(List(xs)) == joined;
    forall k | 0 <= k < |ys| ensures ',' !in ys[k] {
      if k > 0 {
        assert ys[k] == " " + xs[k];
        assert forall c :: c in ys[k] ==> c == ' ' || c in xs[k];
      }
    }
    SplitJoin(ys, ',');
    assert joined == ys[0] + [','] + Join(ys[1..], ",");
    assert joined[|ys[0]|] == ',';
    assert Normalize(joined) == List(ys);
    assert |ys[1]| != |xs[1]|;
  }

  /** A one-item list default accepted with Enter becomes a plain string. */
  lemma SingleItemListDefault(key: string, spec: FieldSpec, packageName: string, env: Environment,
                              answers: seq<Answer>, i: nat, x: string)
    requires spec.default == Some(List([x])) && spec.text.Some?
    requires ',' !in x
    requires i < |answers| && (answers[i] == None || answers[i] == Some(""))
    ensures ResolveField(key, spec, packageName, env, answers, i) == Success(Str(x))
  {
    assert FieldDefault(key, spec, packageName, env) == Success(List([x]));
  }

  /**
   * With no configured author and no git identity, the offered default is Python's `None`,
   * and Enter accepts its text "None".
   */
  lemma MissingIdentityAcceptsNone(spec: FieldSpec, packageName: string, env: Environment,
                                   answers: seq<Answer>, i: nat)
    requires !Truthy(ConfiguredDefault(spec)) && spec.text.Some?
    requires env.gitName == ExitedNonZero
    requires i < |answers| && answers[i] == None
    ensures ResolveField("author", spec, packageName, env, answers, i) == Success(Str("None"))
  {
    assert FieldDefault("author", spec, packageName, env) == Success(Null);
  }

  /**
   * Stores the accepted text under `key`, then overwrites it with its comma-separated pieces
   * when it holds a comma.
   */
  method StoreAnswer(userInfo: map<string, Value>, key: string, accepted: string)
    returns (info: map<string, Value>)
    ensures info == userInfo[key := Normalize(accepted)]
  {
    info := userInfo[key := Str(accepted)];
    var answer := info[key];
    if answer.Str? && ',' in answer.s {
      info := info[key := List(Split(answer.s, ','))];
    }
  }

  /**
   * One iteration of the loop in `prompt_for_info`: computes the default for `key`, prompts
   * with answer `i`, stores the accepted text in `userInfo` and overwrites it with its pieces
   * when it holds a comma.
   */
  method PromptField(userInfo: map<string, Value>, key: string, spec: FieldSpec,
                     defaultPackageName: string, env: Environment, answers: seq<Answer>, i: nat)
    returns (r: Result<map<string, Value>, Exception>)
    ensures var f := ResolveField(key, spec, defaultPackageName, env, answers, i);
      f.Failure? ==> r == Failure(f.error)
    ensures var f := ResolveField(key, spec, defaultPackageName, env, answers, i);
      f.Success? ==> r == Success(userInfo[key := f.value])
  {
    var d := ComputeDefault(key, spec, defaultPackageName, env);
    if d.Failure? {
      return Failure(d.error);
    }
    var defaultValue := d.value;
    if spec.text.None? {
      return Failure(KeyError("text"));
    }
    ghost var presented := Presented(defaultValue);
    if defaultValue.List? {
      defaultValue := Str(Join(defaultValue.items, ", "));
    }
    if i >= |answers| {
      return Failure(Abort);
    }
    assert ToStr(defaultValue) == presented;
    var info := StoreAnswer(userInfo, key, Accept(answers[i], ToStr(defaultValue)));
    return Success(info);
  }

  /** `prompt_for_info`: walks the prompts in order, building the dictionary in place. */
  method PromptForInfo(config: Config, env: Environment, answers: seq<Answer>)
    returns (r: Result<map<string, Value>, Exception>)
    ensures r == Resolve(config, env, answers)
  {
    if config.prompts.None? {
      return Failure(KeyError("prompts"));
    }
    var prompts := config.prompts.value;
    var userInfo: map<string, Value> := map[];
    var defaultPackageName := Basename(env.cwd);
    ghost var keys, results := KeySeq(prompts), FieldResults(prompts, env, answers);
    var i := 0;
    while i < |prompts|
      invariant 0 <= i <= |prompts|
      invariant Collect(keys, results, i) == Success(userInfo)
    {
      var (key, spec) := prompts[i];
      var next := PromptField(userInfo, key, spec, defaultPackageName, env, answers, i);
      assert results[i] == ResolveField(key, spec, defaultPackageName, env, answers, i);
      if next.Failure? {
        FailurePersists(keys, results, i + 1, |prompts|);
        return next;
      }
      userInfo := next.value;
      i := i + 1;
    }
    return Success(userInfo);
  }
}
