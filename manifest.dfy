/**
 * Manifest rendering (`SetupGenerator.generate_setup_py`): ten entries of the resolved dictionary
 * are interpolated into a fixed `setup(...)` call. Seven are written between single quotes and
 * three as bare text; each is looked up in template order, so the first missing one raises
 * `KeyError`.
 */
module Manifest {
  import opened Wrappers
  import opened PyStr
  import opened PyValues

  /** The keys the template reads, in the order the f-string evaluates them. */
  const TemplateKeys: seq<string> :=
    ["name", "version", "description", "author", "author_email", "url", "license",
     "install_requires", "script_args", "zip_safe"]

  /** The first seven template keys, written between single quotes. */
  const QuotedKeys: seq<string> := TemplateKeys[..7]

  /** All ten template keys are present. */
  predicate HasTemplateKeys(info: map<string, Value>) {
    forall k | 0 <= k < |TemplateKeys| :: TemplateKeys[k] in info
  }

  /** The first of `keys` that `info` lacks, if any. */
  function FirstMissing(info: map<string, Value>, keys: seq<string>): (r: Option<string>)
    ensures r.None? <==> forall k :: 0 <= k < |keys| ==> keys[k] in info
    ensures r.Some? ==>
      exists k :: 0 <= k < |keys| && keys[k] == r.value && r.value !in info
                  && (forall j :: 0 <= j < k ==> keys[j] in info)
  {
    if keys == [] then None
    else if keys[0] !in info then Some(keys[0])
    else
      var rest := FirstMissing(info, keys[1..]);
      assert rest.Some? ==> exists k :: 1 <= k < |keys| && keys[k] == rest.value
                                         && (forall j :: 0 <= j < k ==> keys[j] in info) by {
        if rest.Some? {
          var k :| 0 <= k < |keys[1..]| && keys[1..][k] == rest.value
            && (forall j :: 0 <= j < k ==> keys[1..][j] in info);
          assert keys[k + 1] == rest.value;
          forall j | 0 <= j < k + 1 ensures keys[j] in info {
            if j > 0 {
              assert keys[j] == keys[1..][j - 1];
            }
          }
        }
      }
      rest
  }

  /** The text before the first field. */
  const Header: string :=
    "\n        # setup.py\n        import pathlib\n        from setuptools import setup, find_packages\n\n"
    + "        HERE = pathlib.Path(__file__).parent\n        README = (HERE / 'README.md').read_text()\n\n"
    + "        setup(\n"

  /** The two fixed arguments between the quoted and the bare fields. */
  const FixedArguments: string :=
    "            long_description=README,\n            packages=find_packages(),\n"

  /** The text after the last field. */
  const Footer: string := "        )\n        "

  function QuotedLine(info: map<string, Value>, key: string): string
    requires key in info
  {
    "            " + key + "='" + ToStr(info[key]) + "',\n"
  }

  /** What ends the line of template key `k`: the last argument has no trailing comma. */
  function LineEnd(k: nat): string {
    if k == |TemplateKeys| - 1 then "\n" else ",\n"
  }

  function LiteralLine(info: map<string, Value>, key: string, terminator: string): string
    requires key in info
  {
    "            " + key + "=" + ToStr(info[key]) + terminator
  }

  /** The f-string of `generate_setup_py`, cut at the interpolations. */
  function ManifestParts(info: map<string, Value>): seq<string>
    requires HasTemplateKeys(info)
  {
    [Header]
    + seq(7, k requires 0 <= k < 7 => QuotedLine(info, TemplateKeys[k]))
    + [FixedArguments,
       LiteralLine(info, TemplateKeys[7], LineEnd(7)),
       LiteralLine(info, TemplateKeys[8], LineEnd(8)),
       LiteralLine(info, TemplateKeys[9], LineEnd(9)),
       Footer]
  }

  /**
   * `generate_setup_py`: the manifest text, or `KeyError` naming the first template key, in
   * template order, that the dictionary lacks.
   */
  function GenerateSetupPy(info: map<string, Value>): (r: Result<string, Exception>)
    ensures r.Success? <==> HasTemplateKeys(info)
    ensures r.Failure? ==>
      exists k :: 0 <= k < |TemplateKeys| && r.error == KeyError(TemplateKeys[k])
                  && TemplateKeys[k] !in info && (forall j :: 0 <= j < k ==> TemplateKeys[j] in info)
  {
    match FirstMissing(info, TemplateKeys)
    case Some(key) => Failure(KeyError(key))
    case None => Success(Concat(ManifestParts(info)))
  }

  /** The dictionary passed under `--yes` is empty, so rendering fails on the first key. */
  lemma EmptyInfoFails()
    ensures GenerateSetupPy(map[]) == Failure(KeyError("name"))
  {
  }

  /**
   * Each quoted field appears on its own line as `key='<str(value)>',` with the value copied
   * verbatim (no escaping), and each bare field as `key=<str(value)>` (a list as its Python
   * literal).
   */
  lemma RenderedFields(info: map<string, Value>)
    requires GenerateSetupPy(info).Success?
    ensures var text := GenerateSetupPy(info).value;
      (forall k :: 0 <= k < |QuotedKeys| ==>
         Contains(text, "            " + QuotedKeys[k] + "='" + ToStr(info[QuotedKeys[k]]) + "',\n"))
      && (forall k :: 7 <= k < |TemplateKeys| ==>
            Contains(text,
                     "            " + TemplateKeys[k] + "=" + ToStr(info[TemplateKeys[k]]) + LineEnd(k)))
  {
    forall k | 0 <= k < |QuotedKeys|
      ensures Contains(GenerateSetupPy(info).value,
                       "            " + QuotedKeys[k] + "='" + ToStr(info[QuotedKeys[k]]) + "',\n")
    {
      assert QuotedKeys[k] == TemplateKeys[k];
      RenderedQuoted(info, k);
    }
    forall k | 7 <= k < |TemplateKeys|
      ensures Contains(GenerateSetupPy(info).value,
                       "            " + TemplateKeys[k] + "=" + ToStr(info[TemplateKeys[k]]) + LineEnd(k))
    {
      RenderedLiteral(info, k);
    }
  }

  /** The quoted line of template key `k` (0 to 6) occurs in the rendered text. */
  lemma RenderedQuoted(info: map<string, Value>, k: nat)
    requires HasTemplateKeys(info) && k < 7
    ensures Contains(GenerateSetupPy(info).value,
                     "            " + TemplateKeys[k] + "='" + ToStr(info[TemplateKeys[k]]) + "',\n")
  {
    PartRendered(info, k + 1);
    assert ManifestParts(info)[k + 1] == QuotedLine(info, TemplateKeys[k]);
  }

  /** Each piece of the template occurs in the rendered text. */
  lemma PartRendered(info: map<string, Value>, k: nat)
    requires HasTemplateKeys(info) && k < |ManifestParts(info)|
    ensures Contains(GenerateSetupPy(info).value, ManifestParts(info)[k])
  {
    ConcatContains(ManifestParts(info), k);
  }

  /** The bare line of template key `k` (7, 8 or 9) occurs in the rendered text. */
  lemma RenderedLiteral(info: map<string, Value>, k: nat)
    requires HasTemplateKeys(info) && 7 <= k < 10
    ensures Contains(GenerateSetupPy(info).value,
                     "            " + TemplateKeys[k] + "=" + ToStr(info[TemplateKeys[k]]) + LineEnd(k))
  {
    PartRendered(info, k + 2);
    assert ManifestParts(info)[k + 2] == LiteralLine(info, TemplateKeys[k], LineEnd(k));
  }

  lemma {:induction false} ConcatStartsWithFirst(parts: seq<string>)
    requires |parts| >= 1
    ensures |parts[0]| <= |Concat(parts)| && Concat(parts)[..|parts[0]|] == parts[0]
  {
  }

  lemma {:induction false} ConcatEndsWithLast(parts: seq<string>)
    requires |parts| >= 1
    ensures |parts[|parts| - 1]| <= |Concat(parts)|
    ensures Concat(parts)[|Concat(parts)| - |parts[|parts| - 1]|..] == parts[|parts| - 1]
  {
    if |parts| > 1 {
      ConcatEndsWithLast(parts[1..]);
    }
  }

  /** The rendered text opens with the fixed imports and `setup(` and closes the call. */
  lemma RenderedFrame(info: map<string, Value>)
    requires GenerateSetupPy(info).Success?
    ensures var text := GenerateSetupPy(info).value;
      |Header| + |Footer| <= |text| && text[..|Header|] == Header && text[|text| - |Footer|..] == Footer
  {
    var parts := ManifestParts(info);
    ConcatStartsWithFirst(parts);
    ConcatEndsWithLast(parts);
    assert Concat(parts) == parts[0] + Concat(parts[1..]);
    ConcatEndsWithLast(parts[1..]);
  }

  lemma {:induction false} FirstMissingAgree(a: map<string, Value>, b: map<string, Value>,
                                             keys: seq<string>)
    requires forall k :: 0 <= k < |keys| ==> (keys[k] in a <==> keys[k] in b)
    ensures FirstMissing(a, keys) == FirstMissing(b, keys)
  {
    if keys != [] {
      FirstMissingAgree(a, b, keys[1..]);
    }
  }

  /**
   * Rendering depends on nothing but the ten template entries: dictionaries that agree on them
   * render to the same text, or fail on the same key, whatever else they hold.
   */
  lemma RenderReadsOnlyTemplateKeys(a: map<string, Value>, b: map<string, Value>)
    requires forall k :: 0 <= k < |TemplateKeys| ==>
      (TemplateKeys[k] in a <==> TemplateKeys[k] in b)
      && (TemplateKeys[k] in a ==> a[TemplateKeys[k]] == b[TemplateKeys[k]])
    ensures GenerateSetupPy(a) == GenerateSetupPy(b)
  {
    FirstMissingAgree(a, b, TemplateKeys);
    if HasTemplateKeys(a) {
      forall k | 0 <= k < 7 ensures QuotedLine(a, TemplateKeys[k]) == QuotedLine(b, TemplateKeys[k]) {
        assert a[TemplateKeys[k]] == b[TemplateKeys[k]];
      }
      assert TemplateKeys[7] == "install_requires" && a["install_requires"] == b["install_requires"];
      assert TemplateKeys[8] == "script_args" && a["script_args"] == b["script_args"];
      assert TemplateKeys[9] == "zip_safe" && a["zip_safe"] == b["zip_safe"];
      assert ManifestParts(a) == ManifestParts(b);
    }
  }
}
