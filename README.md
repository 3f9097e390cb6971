# setup.py generator — Dafny model

This project models the core of a small command-line tool that writes a `setup.py` packaging
manifest. The core is `SetupGenerator`.

- **Resolution (`prompt_for_info`).** The tool walks the configured prompts in order. For each
  key it picks a default:
  - the configured one;
  - for `name`, the base name of the working directory;
  - for `author` and `author_email`, the result of `git config user.name` / `user.email`.
- **Prompting.** It asks the user, storing the accepted text. An answer that holds a comma is
  split into a list.
- **Rendering (`generate_setup_py`).** Ten entries of the resulting dictionary are interpolated
  into a fixed `setup(...)` call.
- **`--init`.** This command renders either the prompted dictionary or, under `--yes`, an empty
  one.

Modules:

- `Wrappers`: `Option` and `Result`.
- `PyStr`: the Python string built-ins the code relies on:
  - `sep.join`, `str.split`, `str.strip` (with Python's whitespace set);
  - POSIX `os.path.basename`;
  - substring `in`.
- `PyValues`: the values a resolved field can hold (a string, a list of strings, `None`), their
  `str()` text (including `repr` of strings inside a list), and the exceptions the code raises.
- `Resolver`:
  - the git probe, the default selection and the answer normalisation;
  - `Resolve`, a function giving the whole resolution as a value;
  - `PromptForInfo`, the imperative loop that builds the dictionary, proved equal to `Resolve`.
- `Manifest`: the rendered text, or the `KeyError` of the first missing template key.
- `App`: `initialize_setup`. Its `Success` value is the text that is written to `setup.py`.

Modelling choices:

- The terminal is a sequence of answers. `None` or `""` at position `i` is a bare Enter. Running
  out of answers is end of input, which `click.prompt` turns into `Abort`.
- The git command is an injected outcome:
  - it prints something;
  - it exits non-zero (`CalledProcessError`, caught: `None`);
  - git is not installed (`FileNotFoundError`, not caught: it propagates).
- The working directory is an input string.
- The configuration is the decoded JSON. `prompts` is an ordered list of distinct keys, each with
  an optional `text` and an optional `default`.

## Model

| member | source | states |
|---|---|---|
| Resolver.GitInfo | setup_generator/generator_file.py:12-18 | fails (git missing) exactly when the probe finds no git; `None` exactly when git exits non-zero or prints only whitespace; otherwise a non-empty text that neither starts nor ends with whitespace and is a slice of git's output with only whitespace on either side, which by `PyStr.StripUnique` is exactly `strip()` of that output |
| PyStr.StripSlice | setup_generator/generator_file.py:15 | `strip()` keeps a slice of its input with only whitespace removed either side, neither end is whitespace, and the result is empty exactly when the input is all whitespace |
| PyStr.StripUnique | setup_generator/generator_file.py:15 | conversely, any non-empty slice that is framed by whitespace and has non-space ends is exactly what `strip()` returns, so the properties above pin `strip()` down |
| PyStr.TrimStart | setup_generator/generator_file.py:15 | the result is a suffix of the input, everything dropped is whitespace, and it does not start with whitespace |
| PyStr.TrimEnd | setup_generator/generator_file.py:15 | the result is a prefix of the input, everything dropped is whitespace, and it does not end with whitespace |
| PyStr.Basename | setup_generator/generator_file.py:25 | the base name holds no '/', is a suffix of the path, and is preceded by '/' whenever it is shorter than the path |
| Resolver.FieldDefault | setup_generator/generator_file.py:28-39 | a truthy configured default is kept, and so is any default of a key other than name/author/author_email; a falsy `name` default becomes the working directory's basename, computed once before the loop; a falsy `author` (`author_email`) default becomes the stripped output of `git config user.name` (`user.email`) when git prints something other than whitespace, and `None` when git exits non-zero or prints only whitespace; it fails exactly when author/author_email has a falsy default and git is missing, and the failure is then the uncaught `FileNotFoundError` (`GitNotFound`) |
| Resolver.ComputeDefault | setup_generator/generator_file.py:28-39 | the sequential default overrides of the loop body compute `FieldDefault` |
| Resolver.MissingIdentityAcceptsNone | setup_generator/generator_file.py:35-36 | with no configured author and no git identity, Enter accepts the text "None" |
| Resolver.Presented | setup_generator/generator_file.py:44-49 | the default shown to the user: a string is shown as itself, `None` as the text "None", an empty list as "", and a non-empty list as its items joined by "," with a space before every item but the first |
| Resolver.Accept | setup_generator/generator_file.py:52-53 | a bare Enter (an absent or empty answer) accepts the presented default; a non-empty typed answer is taken as typed; the accepted text is empty only when the presented default is |
| Resolver.ResolveField | setup_generator/generator_file.py:28-57 | one field succeeds exactly when its default can be computed, it has a `text` entry and an answer is left; otherwise it raises, in the code's order, the default's git failure, then `KeyError('text')`, then `Abort` at end of input; a stored value is never `None` |
| Resolver.Normalize | setup_generator/generator_file.py:56-57 | an answer stays a string exactly when it has no comma; otherwise it becomes a list of (commas + 1) comma-free pieces whose ','-join is the answer; never `None` |
| PyStr.Split | setup_generator/generator_file.py:57 | `split(',')` yields one more piece than there are commas, and no piece holds a comma |
| PyStr.JoinSplit | setup_generator/generator_file.py:57 | joining the pieces of a split with the separator gives back the text |
| PyStr.SplitJoin | setup_generator/generator_file.py:57 | splitting the join of one or more separator-free pieces gives back exactly those pieces |
| PyStr.JoinPaddedSeparator | setup_generator/generator_file.py:45 | joining with ", " is joining with "," after prefixing every piece but the first with a space |
| Resolver.EnterAcceptsDefault | setup_generator/generator_file.py:44-57 | a bare Enter accepts the presented default, kept as a string when it holds no comma |
| Resolver.TypedAnswerWins | setup_generator/generator_file.py:52-57 | a non-empty answer replaces the default, whatever the default was |
| Resolver.ListDefaultResplit | setup_generator/generator_file.py:44-57 | a list default of two or more comma-free items, accepted with Enter, comes back as a list whose later items carry a leading space, so it differs from the configured list |
| Resolver.SingleItemListDefault | setup_generator/generator_file.py:44-57 | a one-item list default accepted with Enter becomes a plain string |
| Resolver.StoreAnswer | setup_generator/generator_file.py:52-57 | storing the answer then overwriting it with its pieces leaves the dictionary updated at `key` with the normalised answer and unchanged elsewhere |
| Resolver.PromptField | setup_generator/generator_file.py:27-57 | one loop iteration either raises the field's exception, or adds the field's resolved value under its key and changes nothing else |
| Resolver.PromptForInfo | setup_generator/generator_file.py:20-59 | the loop computes `Resolve`: missing `prompts` gives `KeyError('prompts')`; otherwise the first failing field's exception, or the dictionary of all resolved fields |
| Resolver.ResolveEntries | setup_generator/generator_file.py:20-59 | a successful resolution has exactly the configured keys, one entry each, and the k-th key holds what its field resolves to with the k-th answer |
| Resolver.ResolveSucceedsIff | setup_generator/generator_file.py:20-59 | resolution succeeds exactly when `prompts` is present and every field, with its own answer, resolves |
| Resolver.ResolveFirstFailure | setup_generator/generator_file.py:20-59 | a failure is `KeyError('prompts')` when prompts are absent, else the exception of the earliest failing field, all earlier fields having succeeded |
| Resolver.CollectEntries | setup_generator/generator_file.py:27-57 | for distinct keys, a successful fold of the per-field results in order has exactly the first n keys, and the k-th key holds the k-th result |
| Resolver.FailurePersists | setup_generator/generator_file.py:27-57 | once a field has failed, later iterations do not change the outcome |
| Manifest.FirstMissing | setup_generator/generator_file.py:72-94 | `None` exactly when every key is present; otherwise the earliest absent key |
| Manifest.GenerateSetupPy | setup_generator/generator_file.py:61-95 | rendering succeeds exactly when all ten template keys are present; a failure is `KeyError` naming the first missing one in template order |
| Manifest.RenderedFields | setup_generator/generator_file.py:81-92 | the text holds `key='<str(value)>',` for each of the seven quoted keys (value copied without escaping) and `key=<str(value)>` for install_requires, script_args and zip_safe, each line ending in a comma except the last |
| Manifest.RenderedFrame | setup_generator/generator_file.py:72-94 | the text starts with the fixed import header ending in `setup(` and ends with the closing parenthesis line |
| Manifest.RenderReadsOnlyTemplateKeys | setup_generator/generator_file.py:72-94 | two dictionaries that agree on the ten template keys render identically, or fail on the same key |
| Manifest.EmptyInfoFails | setup_generator/generator_file.py:81 | rendering the empty dictionary raises `KeyError('name')` |
| PyValues.ReprRoundTrip | setup_generator/generator_file.py:90-91 | the `repr` of a string, as it appears inside a rendered list, reads back as that string |
| PyStr.ConcatContains | setup_generator/generator_file.py:72-94 | every piece of the template appears in the rendered text |
| App.InitializeSetup | setup_generator/app.py:20-33 | under `--yes` the run fails with `KeyError('name')` and writes nothing; otherwise it raises resolution's exception, or renders the resolved dictionary; a written file implies every template key was configured |

## Left out

- `load_config` (setup_generator/generator_file.py:112-120) is left out because it is file I/O
  and JSON decoding. Its hard-coded Windows-style path is not modelled either. The configuration
  is an input.
- `save_setup_py` (setup_generator/generator_file.py:97-109) is left out because it is a file
  write. `App.InitializeSetup` returns the text it would write.
- The command-line dispatch, the colorama banners and the empty `build_package` in
  setup_generator/app.py are left out.
- `click.style` colouring is left out.
  - The model presents the plain `str()` of the default, not its ANSI-coloured form.
  - When the user presses Enter, `click.prompt` returns the coloured string. The model does not
    capture these colour codes leaking into the stored value.
- Prompt display and the prompt text itself are left out. Only the presence of `text` is
  checked, as the code reads it.
- Decoding of git's output is assumed to succeed. A `UnicodeDecodeError` is not modelled.
- `os.getcwd()` failures are not modelled.
- `os.path.basename` follows POSIX rules only. Windows drive letters and backslashes are not
  modelled.
- `PyValues.Repr`: only code points up to U+00A0 (and U+00AD) are escaped. Python's other
  non-printable code points are treated as printable.
- JSON defaults that are numbers, booleans or objects are not modelled. A default is absent, a
  string, a list of strings, or null.
- Split pieces are not trimmed and `--yes` does not resolve defaults. The code does neither, and
  the model follows the code.
