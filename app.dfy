/**
 * `initialize_setup`, the `--init` command: resolve the fields (or, under `--yes`, take an empty
 * dictionary), render the manifest, and write it to `setup.py`. The written file is the
 * `Success` value; nothing is written when an exception is raised first.
 */
module App {
  import opened Wrappers
  import opened PyValues
  import opened Resolver
  import opened Manifest

  method InitializeSetup(yes: bool, config: Config, env: Environment, answers: seq<Answer>)
    returns (written: Result<string, Exception>)
    ensures yes ==> written == Failure(KeyError("name"))
    ensures !yes && Resolve(config, env, answers).Failure? ==>
      written == Failure(Resolve(config, env, answers).error)
    ensures !yes && Resolve(config, env, answers).Success? ==>
      written == GenerateSetupPy(Resolve(config, env, answers).value)
    ensures written.Success? ==>
      !yes && config.prompts.Some?
      && forall k :: 0 <= k < |TemplateKeys| ==> TemplateKeys[k] in KeysOf(config.prompts.value)
  {
    var userInfo: map<string, Value>;
    if !yes {
      var resolved := PromptForInfo(config, env, answers);
      if resolved.Failure? {
        return Failure(resolved.error);
      }
      userInfo := resolved.value;
    } else {
      userInfo := map[];
    }
    written := GenerateSetupPy(userInfo);
    if written.Success? {
      ResolveEntries(config, env, answers);
    }
  }
}
