# PySnap screen-then-run core, modelled in Dafny

PySnap accepts Python source text, checks it against a denylist before running it, works out which of its imports resolve locally, runs it in a child process with an optional timeout, and reports the captured output. A small browser-side translator picks the interface language.

The model covers two pieces of logic.

**`utils/runner.py`**
- The denylist safety screen `_ast_safety_check`.
- The import scanner `scan_imports`.
- The environment resolver `analyze_imports_against_env`.
- How `execute_file` turns the end of the wait on the child into its result dict.

**`static/i18n.js`**
- The translation tables.
- `init` (language selection only), `set` and `t`.

The model is built from these modules:
- `Maybe` (maybe.dfy): an optional value.
- `Text` (text.dfy): the root of a dotted name, ASCII lower-casing, and prefix tests.
- `StringOrder` (ordering.dfy): Python's code-point order on `str`. It also holds the `sorted(set(...))` step that `scan_imports` ends with.
- `PyAst` (pyast.dfy): the syntax-tree nodes the screen and the scanner inspect, and `ast.walk` as a breadth-first traversal with a queue. Starting from the root, the walk yields every node of the tree, each as often as it occurs in the tree.
- `Safety` (safety.dfy): the two denylists, the per-node rules and the screen.
- `ImportScan` (scan.dfy): the scanner. It also proves that code which passes the screen never scans to a denylisted import.
- `EnvResolver` (resolver.dfy): the found/missing split.
- `Execution` (execution.dfy): the result record.
- `I18n` (i18n.dfy): the translator state and its invariant.

Host state enters the model as parameters:
- `ast.parse` becomes a `Parse` value: either a tree or the text of the exception.
- The installed-distribution registry becomes a set of lower-case names. It is empty when the registry cannot be read.
- `__import__` becomes a pure predicate saying whether importing a name succeeds.
- The child process becomes either the outcome the wait observes (`Outcome`) or what the child does (`Child`).
- The timeout value appears only inside the timeout notice, so it is kept as text.
- The browser language becomes a string argument of `Init`.

Notes on the code as written. The model follows the code in each case:
- After a timeout, `stderr` holds the timeout notice alone. The dict's `stderr` is still empty when `communicate` raises, so any output the child produced before it was killed is dropped.
- When spawning or waiting raises any other exception, `stderr` holds the exception's message rather than staying empty. `traceback` holds the formatted traceback.
- The killed child is not waited on after `kill()`. The model claims nothing about reaping it.
- The rule for calls never changes the verdict. It only changes the message: the walk reaches a call before its callee, so a call such as `eval(x)` is reported by the call rule. The callee is a `Name` node that the name rule flags anyway.

## Model

| member | source | states |
|---|---|---|
| Text.Root | utils/runner.py:96 | `name.split(".")[0]` is the longest dot-free prefix of the name: it contains no dot and is either the whole name or followed by a dot |
| Text.Lower | utils/runner.py:171 | the lower-cased name has the same length, no ASCII capital letters, each ASCII capital replaced by its small letter, and every other character unchanged (ASCII only; see Left out) |
| Text.RootOfDottedPath | utils/runner.py:96 | the root of a dotted path is its leading component: a dot-free prefix followed by the end or by a dot |
| PyAst.Walk | utils/runner.py:93 | the breadth-first walk from a tree yields exactly the nodes of the tree, each as often as it occurs in the tree (multiset equality), and as many nodes as the tree has |
| Safety.NodeMessage | utils/runner.py:94-107 | a node yields a message exactly when its own rule fires. For an `import`, some alias has a denylisted root, and the message names such an alias. For a `from` import, the module is present and its root is denylisted. For a name, the id is denylisted. For a call, the callee is a denylisted name. Each message is the rule's fixed prefix followed by that name; other nodes yield nothing |
| Safety.FirstDeniedAlias | utils/runner.py:95-97 | the alias loop stops at the first alias whose root is denylisted: every earlier alias has an allowed root; it runs past the end iff no alias is denylisted |
| Safety.FirstViolation | utils/runner.py:93-107 | the walk stops at the first flagged node: every earlier node is unflagged; it runs past the end iff no walked node is flagged |
| Safety.SafetyCheck | utils/runner.py:81-109 | unparseable code fails with the parse-error message; a tree passes iff no node anywhere in it is flagged; a pass carries exactly the pass message; a failure carries the message of a flagged node of the tree |
| Safety.DenylistedRootOf | utils/runner.py:96 | a denylisted module or any dotted submodule of it (`os`, `os.path`) has a denylisted root |
| Safety.DenylistedImportRejected | utils/runner.py:93-97 | an `import` anywhere in the tree with an alias that is a denylisted module or a submodule of one (so `os.path` counts as `os`) makes the screen fail |
| Safety.DenylistedImportFromRejected | utils/runner.py:98-100 | a `from m import ...` anywhere in the tree whose module is a denylisted module or a submodule of one makes the screen fail |
| Safety.RelativeImportFromNotFlagged | utils/runner.py:99 | a `from . import x` with no module is read as the empty name and is never flagged |
| Safety.DangerousNameRejected | utils/runner.py:101-103 | a reference to `__import__`, `exec` or `eval` anywhere in the tree makes the screen fail |
| Safety.CallRuleRedundant | utils/runner.py:101-107 | a tree has a flagged node iff it has a flagged node that is not a call, because a flagged call's callee is a flagged name in the same tree |
| Safety.PassesIffNoImportOrNameViolation | utils/runner.py:93-109 | the verdict is the same with the call rule ignored: a tree passes iff no node breaks the import, from-import or name rules |
| StringOrder.SortUnique | utils/runner.py:115-127 | `sorted(set(...))`: the result is strictly sorted in Python's code-point order (so duplicate-free) and holds exactly the elements of its input |
| ImportScan.CollectRoots | utils/runner.py:120-126 | a root is collected from a run of nodes iff one of those nodes contributes it |
| ImportScan.WalkedRootsAreImported | utils/runner.py:120-126 | the roots collected along the walk are exactly the roots imported anywhere in the tree, and none contains a dot |
| ImportScan.ScanImports | utils/runner.py:113-127 | unparseable code scans to `[]`; otherwise the result is strictly sorted (so duplicate-free), contains no dot, and holds exactly the roots of every `import` alias and every non-empty `from` module in the tree |
| ImportScan.ImportAliasScanned | utils/runner.py:121-123 | the root of every alias of every `import` anywhere in the tree is in the scan |
| ImportScan.ImportFromScanned | utils/runner.py:124-126 | the root of every non-empty `from` module anywhere in the tree is in the scan |
| ImportScan.ScanIsCanonical | utils/runner.py:115-127 | the scan is the only strictly sorted list of the tree's imported roots, so it does not depend on traversal order |
| ImportScan.ScreenedCodeImportsNoDenylisted | utils/runner.py:93-127 | when the screen passes a tree, no scanned root is denylisted |
| EnvResolver.AnalyzeImports | utils/runner.py:157-180 | the loop builds `found` and `missing` as the order-keeping filters of the non-empty names. A name is in `found` iff its lower-case form is installed or it imports; it is in `missing` iff neither holds |
| EnvResolver.KeptMembership | utils/runner.py:168-179 | a name lands in the found (or missing) list iff it is a non-empty input name that is (or is not) available |
| EnvResolver.KeptPartition | utils/runner.py:166-179 | every non-empty input name, counted with multiplicity, lands in exactly one of the two lists |
| EnvResolver.KeptKeepsOrder | utils/runner.py:168-179 | both lists keep input order: a strictly sorted input gives strictly sorted lists |
| EnvResolver.EmptyRegistryMissesUnimportable | utils/runner.py:152-179 | with an empty registry snapshot, a name is missing iff it is non-empty and cannot be imported |
| EnvResolver.ResolveScanPartitions | utils/runner.py:113-180 | resolving a scan gives disjoint found and missing lists, sorted, whose union is the non-empty scanned roots |
| Execution.Communicate | utils/runner.py:203-214 | the wait times out iff the timeout is enabled and the child outlives it; otherwise a child that exits completes with exactly its output, error text and exit code; a child whose spawn or wait raises fails with exactly that message and traceback; with the timeout disabled it never times out |
| Execution.TimeoutNotice | utils/runner.py:220-222 | the notice is a fixed head, the timeout as Python prints it, and a fixed tail; the timeout text can be read back from between them |
| Execution.ExecuteFile | utils/runner.py:192-227 | completed: output, error and exit code copied, no timeout, no traceback. Timed out: `timeout` set, no exit code, empty stdout, stderr the notice alone. Failed: stderr is the message, traceback set, no exit code, no timeout |
| Execution.OutcomeRecoverable | utils/runner.py:192-227 | the outcome, with everything it carried, can be read back from the record, so the three ways a run ends are distinguishable |
| Execution.CompletedChildReachesRecord | utils/runner.py:203-213 | a child that runs to completion, within the timeout or with the timeout disabled, has its output, error text and exit code copied into the record unchanged, with no timeout and no traceback |
| Execution.RaisingChildReachesRecord | utils/runner.py:203-225 | a child whose spawn or wait raises gives a record with empty stdout, the exception's message as stderr, its traceback, no exit code and no timeout |
| Execution.TimeoutDisabledNeverTimesOut | utils/runner.py:207-210 | with the timeout disabled, the record never reports a timeout |
| I18n.LanguagesAreThree | static/i18n.js:3-96 | the tables are exactly `zh`, `en` and `jp`, and the loaded language `zh` is one of them |
| I18n.Init | static/i18n.js:98-102 | the lower-cased browser language selects `zh` by prefix `zh`, then `jp` by prefix `ja`, else `en`; the result is always a table language |
| I18n.Set | static/i18n.js:106-111 | (corrected guard; see Findings) a language with a table becomes current; any other argument changes nothing; a valid state stays valid |
| I18n.SetIdempotent | static/i18n.js:106-111 | `set(l); set(l)` leaves the same state as `set(l)` |
| I18n.Session | static/i18n.js:98-111 | (corrected guard; see Findings) after `init` and any sequence of `set` calls, the current language is one of `zh`, `en`, `jp` |
| I18n.SessionWithoutValidChoice | static/i18n.js:98-111 | when no choice of a session has a table, the current language stays the one `init` picked |
| I18n.SessionKeepsLastValidChoice | static/i18n.js:98-111 | after a session, the current language is the last choice that has a table |
| I18n.T | static/i18n.js:113-115 | the lookup returns the current table's string when it is present and non-empty; otherwise (an empty string included) it returns the key; the result is empty only for the empty key |
| I18n.TablesAgree | static/i18n.js:5-95 | the three tables have identical key sets and no empty strings |
| I18n.KnownKeyTranslated | static/i18n.js:5-115 | for any key of the `zh` table, every language has that key and the lookup returns its table string, never the fallback |
| I18n.SetAsWritten | static/i18n.js:106-108 | the guard as JavaScript reads it: any name whose lookup on the dictionary is truthy becomes current, including inherited object members |
| I18n.SetAsWrittenBreaksValidity | static/i18n.js:106-108 | after `init`, `set("constructor")` as written leaves a current language that names no table |
| I18n.SetAgreesWithWrittenOnTables | static/i18n.js:106-108 | the corrected guard agrees with the written one on the three tables and ignores every inherited member |

## Left out

- `ast.parse` (the Python grammar) is not modelled. The model takes the parsed tree, or the parse exception's text, as input.
- Some leaf nodes are not modelled, because no rule flags them. These are the `alias` nodes of both `import` and `from ... import`, and the `ctx` child of every `Name`. Every other node kind is a generic node with its children.
- The rejection message depends on the breadth-first order of `ast.walk` when a tree has several violations. The walk is modelled in that order, but the properties are stated over the verdict and over "a message of some flagged node".
- Text.Lower: lower-cases ASCII letters only. Python's `str.lower` and JavaScript's `toLowerCase` use full Unicode case mapping. Non-ASCII package names and browser languages may therefore lower-case differently.
- `get_installed_packages` is not modelled, because `importlib.metadata`, `pkg_resources` and `__import__` read the host environment. The model takes the registry snapshot as a set and the import attempt as a pure predicate. Side effects of a real import, and a result that changes between calls, are not modelled. Neither is an import that raises a `BaseException` outside `Exception`, such as a module calling `sys.exit()` when imported: `except Exception` does not catch it, so it escapes `analyze_imports_against_env`. An import that never returns, which hangs the request, is not modelled either.
- Process handling in `execute_file` is reduced to the observed outcome. This covers `Popen`, `communicate`, `kill`, the wall clock and `sys.executable`. A child that never ends while the timeout is disabled leaves the wait unbounded, and the model has no outcome for that.
- Whether the killed child is reaped is not modelled. The code does not wait on it after `kill()`, and an exception from `kill()` is swallowed.
- The timeout is a float that appears only in the notice. The model takes it as the text Python would print.
- The temp-file functions are not modelled, because they are filesystem I/O and `_timestamp_name` reads the clock. This covers `save_code_to_temp`, `list_temp_files`, `read_temp_file` and `clear_temp_files`.
- The history functions are not modelled, because they are JSON file I/O and `_today_filename` reads the date. This covers `save_run_history` and `list_history`.
- `app.py` is not part of this model. It holds the HTTP routing and the `/run` sequence of screen, scan, resolve, save, execute and record.
- `static/app.js` is not part of this model. It holds the editor, the DOM, requests, local storage and timers.
- `i18n.apply` is not modelled, because it writes into the page. `init` keeps only the language selection, with the browser language passed in.
- I18n.T: the lookup reads own table entries only. In JavaScript, a key that names an inherited object member (such as `"constructor"`) returns that member rather than the key.

## Findings

| source | as written | input that shows it | evidently intended | confidence | as-written member | corrected member |
|---|---|---|---|---|---|---|
| static/i18n.js:107 | `if (this.dict[lang])` is truthy for every member a plain object inherits (`constructor`, `toString`, `__proto__`, ...), so such a name becomes the current language | `i18n.set("constructor")` after `init`: current becomes `"constructor"`, which names no table | switch only to one of the three tables (`zh`, `en`, `jp`) | medium, not executed; the only caller in the front end passes the value of the language selector | I18n.SetAsWritten, I18n.SetAsWrittenBreaksValidity | I18n.Set |
