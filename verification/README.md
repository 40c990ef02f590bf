# Analyzer service core, modelled in Dafny

The analyzer service accepts a request describing an asset and a manifest of
downloadable artifacts. It downloads the artifacts into a scratch directory,
builds a SARIF 2.1.0 result document from the findings of an analysis step,
and posts that document to a callback. This project models the three
deterministic pieces of that service and proves properties about them:

- **SARIF result builder** (`api/tasks.py`, `_mock_build_sarif`), module `Sarif`.
  Findings become one result each, in input order, with fixed defaults for
  absent fields. Rules are deduplicated by rule id, and the first occurrence wins.
- **Artifact path index** (`api/artifacts.py`, `download_artifacts`), module
  `Artifacts`. A manifest (type → ordered artifacts) and a work directory
  become a map from type → ordered local paths `workdir/<type>/<filename>`.
  The first download that fails aborts the call.
- **Settings loader** (`api/models.py`, `get_settings`), module `Models`. It
  validates three environment variables in a fixed order.

Support modules:
- `Wrappers`: `Option` stands for a missing dict key or a `None`, and `Result` for a raised exception.
- `PyDicts`: Python's insertion-ordered `dict` with `setdefault`, item assignment and `values()`.
- `Seqs`: distinctness and first-occurrence deduplication (`Dedup`), with the
  predicate `FirstOccurrenceOrder` that describes it independently.

The environment is a parameter in every module:
- `os.environ` is a `map<string, string>`.
- The network is a function `Network = (nat, string) -> Response`. It gives
  the response to the q-th GET of the call, counting from 0, for a URL. This
  covers any server behaviour, including different answers to repeated URLs.
- The file system is left out. A path is its sequence of components.

The code performs none of the following checks, and the model follows it:
- The code does not reject unsafe or absolute filenames.
- It does not compare sizes with `size_bytes`.
- It does not check `expires_at`.
- It does not reject repeated filenames within a type. Repeated filenames
  give repeated paths, and `IndexPaths` states this.
- It does not clean up partial files.
- It does not retry.

## Model

| member | source | states |
|---|---|---|
| `PyDicts.SetDefault` | api/tasks.py:17-21 | `setdefault` inserts the key with the default only when the key is absent. A new key goes last in iteration order. An existing key keeps its value and its place, and all other keys are unchanged. |
| `PyDicts.SetDefaultFirstWins` | api/tasks.py:17-21 | A second `setdefault` on the same key changes nothing, whatever its default, so the first value given for a rule id is kept. |
| `PyDicts.Set` | api/artifacts.py:34 | Assigning to an existing key (`out[t].append(...)`) keeps the key order and changes only that key's value. |
| `PyDicts.ValuesSetDefault` | api/tasks.py:45 | After `setdefault`, `list(d.values())` is unchanged when the key was present, and ends with the new value when it was absent. So the rule list grows only for a new rule id. |
| `PyDicts.ValuesSet` | api/artifacts.py:34 | Assigning to a present key replaces its value in place among `d.values()`. Appending to a type's path list leaves the index's entry order unchanged. |
| `Sarif.Accumulate` | api/tasks.py:12-36 | After the loop over findings, the rule dict's key order is the findings' rule ids deduplicated in first-occurrence order. Each rule is built from its id. The results list has one entry per finding, in input order. |
| `Sarif.BuildSarif` | api/tasks.py:11-50 | The document has version "2.1.0" and exactly one run, whose driver name and version are the inputs. Its rule ids are the deduplicated rule ids of the findings, and every rule's short and full description text equal its id. Results match findings one for one, in order. Each `ruleId` is the `cwe`, or "CWE-000" when it is absent. The defaults are message "", uri "", startLine 1, startColumn 1 and properties `{}`, with exactly one location per result. |
| `Sarif.RuleIdsUnique` | api/tasks.py:17-21 | No two rules in the driver share an id. |
| `Sarif.RulesCharacterised` | api/tasks.py:15-21 | A list of ids is the driver's rule id list if and only if it lists each distinct rule id of the findings exactly once, ordered by where each first occurs. |
| `Sarif.RuleCountIsDistinctIds` | api/tasks.py:15-21 | The number of rules equals the number of distinct rule ids among the findings. |
| `Sarif.EveryResultHasRule` | api/tasks.py:16-24 | Every result's `ruleId` is the `id` of some rule in the driver. |
| `Sarif.EmptyFindings` | api/tasks.py:12-15 | No findings give empty `rules` and empty `results`. |
| `Sarif.AppendKeepsRules` | api/tasks.py:15-21 | Appending findings never removes or reorders earlier rules. The rules for a prefix of the findings are a prefix of the rules for all of them. |
| `Sarif.AppendConcatenatesResults` | api/tasks.py:15-36 | The `results` of the document built from `fs + gs` are the `results` built from `fs` followed by those built from `gs`. Each result depends only on its own finding. |
| `Seqs.DedupFirstOccurrence` | api/tasks.py:17-21 | Deduplicating with `setdefault`-style insertion gives a list with no repeats and the same elements as the input, ordered by first occurrence. |
| `Seqs.FirstOccurrenceOrderUnique` | api/tasks.py:17-21 | Any list with no repeats, the same elements and first-occurrence order equals that deduplication. |
| `Models.GetSettings` | api/models.py:33-45 | Loading succeeds exactly when all three variables are set and non-empty. The resulting `Settings` then carries exactly those three values. |
| `Models.FirstFailingCheckReported` | api/models.py:38-43 | Loading fails exactly when some required variable is missing or empty. The error is the one for the first such variable in the order name, version, broker URL. |
| `Models.NameCheckedFirst` | api/models.py:35-39 | A missing or empty `ANALYZER_NAME` gives the ANALYZER_NAME error, with its exact message, whatever the other variables hold. |
| `Models.OnlyFirstFailureReported` | api/models.py:38-43 | The version error is reported if and only if the name is set and the version is not. The broker URL error is reported if and only if name and version are set and the URL is not. |
| `Models.EmptyIsAbsent` | api/models.py:38-43 | Setting a required variable to "" has the same result as leaving it unset. |
| `Models.OtherVariablesIgnored` | api/models.py:35-37 | Two environments that agree on the three required variables give the same result. |
| `Models.SettingsRoundTrip` | api/models.py:35-45 | Loading from an environment that sets the three variables to the non-empty fields of a `Settings` gives that `Settings` back. |
| `Artifacts.DownloadType` | api/artifacts.py:25-34 | The artifacts of one type are requested in order. If all succeed, every request is recorded and the type's list becomes `workdir/<type>/<filename>` for each artifact, in order, with other keys unchanged. Otherwise the call stops at the first failed request with that request's error. |
| `Artifacts.StageType` | api/artifacts.py:21-34 | One outer iteration (`setdefault` of the type, then its downloads) either extends the index and the request log by exactly that type, or aborts at its first failed request. On abort, only a non-empty prefix of that type's artifacts has been requested. |
| `Artifacts.DownloadAll` | api/artifacts.py:19-35 | Over a whole manifest, success means every artifact was requested in manifest order, all succeeded, and the index matches the manifest. Failure means the requests made are a prefix of that order, ending at the first failed one. |
| `Artifacts.DownloadArtifacts` | api/artifacts.py:12-35 | Directory creation and file writes are taken to succeed. Under that assumption, the call succeeds if and only if every download in manifest order succeeds. On success the index has exactly the manifest's types, in order, including types with no artifacts, with each type's local paths. On failure nothing after the failing download is requested, and the error is that download's. A `None` or empty manifest gives an empty index and no requests. |
| `Artifacts.IndexPaths` | api/artifacts.py:22-34 | For each type there is one path per artifact, in order. Each path is workdir, then the type, then the filename. Artifacts with the same filename get the same path, and both entries stay. |
| `Artifacts.IndexTypes` | api/artifacts.py:21-25 | The index's key set equals the manifest's type set. Each type has as many paths as artifacts, including types with none. |

## Left out

- Network and disk effects are left out: streaming the body in chunks and
  writing files (api/artifacts.py:29-33), `os.makedirs`, and the temporary
  directory. Only each request's abstract outcome and the returned index are modelled.
- The `os.path.join` rule that an absolute component discards the earlier
  components is left out. Paths are component sequences. The model claims
  no traversal safety, and the code performs none.
- Artifact entries that lack `filename` or `download_url` would raise
  `KeyError` in the code. They are not modelled, because a manifest entry is
  the `Artifact` record with all its fields.
- HTTP client timeouts and redirect handling are left out. The network
  function gives the final response after redirects.
- The callback POST, its headers and `raise_for_status`, the Celery task and
  app, and the Redis health probe are left out. They are network or broker glue.
- The `/analyze` handler is left out, because it returns a hardcoded
  document. The hardcoded findings in `run_analysis` are left out too.
- `lru_cache` and the process-wide `SETTINGS` value are left out, because
  they only cache the result of `get_settings`.
- The schema library's `HttpUrl` validation of `download_url` and
  `callback_url` is left out. The URL is kept as text.
- `AnalyzeRequest` is not modelled. It has no behaviour beyond its fields, and
  the modelled functions take a manifest directly.
- Artifacts.DownloadArtifacts: failures of the file system are not modelled, although they abort the call.
  Examples are `os.makedirs` raising (api/artifacts.py:23) and `open(dst, "wb")` raising (api/artifacts.py:31).
  The latter happens for an empty filename (`dst` is then the type directory) or for a filename with a
  missing sub-directory such as `"sub/a.c"`. The model returns `Success` in those cases, and its
  "succeeds if and only if" covers the GET outcomes only.
- Sarif.BuildSarif: a finding key that is present with the value `None` is
  not modelled. In Python, `f.get` returns `None` rather than the default in
  that case. A key is either absent, which gives the default, or holds a
  value of the field's type.
- Sarif.BuildSarif: property values are modelled as strings. The builder
  copies the mapping unchanged and never inspects the values.
- Models.GetSettings: the environment is a map from names to strings.
  Platform rules about variable names are not modelled.
