/** `download_artifacts` of `api/artifacts.py`, with the network and the disk
    abstracted away. The outcome of every GET is supplied by a `Network`
    function; the file writes are not modelled, only the index of local paths
    the call returns and the abort on the first failed download. */
module Artifacts {
  import opened Wrappers
  import opened Models
  import PyDicts

  /** A file-system path as its sequence of components. */
  type Path = seq<string>

  /** `os.path.join(base, part)` for a relative `part`. */
  function Join(base: Path, part: string): Path {
    base + [part]
  }

  /** Artifact type tag (`"firmware"`, `"source"`, ...) to the artifacts of that type, in order. */
  type Manifest = PyDicts.Dict<string, seq<Artifact>>

  /** Artifact type tag to the local paths of its downloaded files, in order. */
  type Index = PyDicts.Dict<string, seq<Path>>

  /** What the server answered to one GET (after following redirects), or a
      failure of the transport itself. */
  datatype Response = Response(status: int) | TransportFailure

  /** The exception that aborts the call. */
  datatype DownloadError = HttpStatusError(status: int) | TransportError

  /** The network: the response to the `q`-th GET of the call (counting from 0) for a URL. */
  type Network = (nat, string) -> Response

  predicate IsSuccess(status: int) {
    200 <= status < 300
  }

  /** `r.raise_for_status()`: every status outside 2xx raises. */
  function RaiseForStatus(resp: Response): Option<DownloadError> {
    match resp
    case TransportFailure => Some(TransportError)
    case Response(status) => if IsSuccess(status) then None else Some(HttpStatusError(status))
  }

  /** `manifest or {}` */
  function ManifestOrEmpty(manifest: Option<Manifest>): Manifest {
    manifest.GetOr(PyDicts.Empty())
  }

  /** The artifacts of the listed types, type after type, each type's list in order. */
  function Concat(types: seq<string>, items: map<string, seq<Artifact>>): seq<Artifact>
    requires forall t :: t in types ==> t in items
    decreases |types|
  {
    if types == [] then []
    else Concat(types[..|types| - 1], items) + items[types[|types| - 1]]
  }

  /** The order in which the call requests the artifacts of a manifest. */
  function DownloadOrder(m: Manifest): seq<Artifact>
    requires m.Valid()
  {
    Concat(m.keys, m.vals)
  }

  /** Every one of these requests, made in this order, succeeds. */
  predicate AllFetched(network: Network, requested: seq<Artifact>) {
    forall q :: 0 <= q < |requested| ==> RaiseForStatus(network(q, requested[q].downloadUrl)).None?
  }

  /** The local paths of a list of artifacts of type `t`: `workdir/t/filename` for each. */
  function LocalPaths(workdir: Path, t: string, items: seq<Artifact>): seq<Path> {
    seq(|items|, k requires 0 <= k < |items| => Join(Join(workdir, t), items[k].filename))
  }

  lemma {:induction false} ConcatPrefix(types: seq<string>, items: map<string, seq<Artifact>>, n: nat)
    requires forall t :: t in types ==> t in items
    requires n < |types|
    ensures Concat(types[..n], items) + items[types[n]] == Concat(types[..n + 1], items)
    ensures Concat(types[..n + 1], items) <= Concat(types, items)
    decreases |types|
  {
    assert types[..n + 1][..n] == types[..n];
    if n + 1 < |types| {
      var init := types[..|types| - 1];
      assert init[..n] == types[..n] && init[..n + 1] == types[..n + 1];
      ConcatPrefix(init, items, n);
    } else {
      assert types[..n + 1] == types;
    }
  }

  /** `index` is the result of staging all of `m` under `workdir`: the same types
      in the same order, and for each type the local paths of its artifacts. */
  predicate IndexOf(index: Index, m: Manifest, workdir: Path) {
    && index.Valid()
    && index.keys == m.keys
    && forall t :: t in m.vals ==> t in index.vals && index.vals[t] == LocalPaths(workdir, t, m.vals[t])
  }

  /** The call stopped at its last request: all earlier ones succeeded and the last one raised `err`. */
  predicate AbortedAt(network: Network, requested: seq<Artifact>, err: DownloadError) {
    && 0 < |requested|
    && AllFetched(network, requested[..|requested| - 1])
    && RaiseForStatus(network(|requested| - 1, requested[|requested| - 1].downloadUrl)) == Some(err)
  }

  /** A failed request among the first ones rules out that all of them succeed. */
  lemma FailedRequestBlocks(network: Network, requested: seq<Artifact>, order: seq<Artifact>, err: DownloadError)
    requires requested <= order
    requires AbortedAt(network, requested, err)
    ensures !AllFetched(network, order)
  {
  }

  /** The inner loop of the call: request the artifacts of one type in order,
      appending `workdir/<type>/<filename>` to that type's list after each
      successful download, and stop at the first failure. `before` are the
      requests already made by the call. */
  method DownloadType(out: Index, artType: string, items: seq<Artifact>, workdir: Path,
                      network: Network, before: seq<Artifact>)
    returns (out': Index, requested: seq<Artifact>, err: Option<DownloadError>)
    requires out.Valid() && artType in out.vals && out.vals[artType] == []
    requires AllFetched(network, before)
    ensures err.None? ==>
      && requested == before + items
      && AllFetched(network, requested)
      && out'.Valid() && out'.keys == out.keys
      && out'.vals == out.vals[artType := LocalPaths(workdir, artType, items)]
    ensures err.Some? ==>
      && |before| < |requested| <= |before| + |items|
      && requested == before + items[..|requested| - |before|]
      && AbortedAt(network, requested, err.value)
  {
    var typeDir := Join(workdir, artType);
    out' := out;
    requested := before;
    var j := 0;
    assert LocalPaths(workdir, artType, items[..0]) == [];
    assert out.vals[artType := []] == out.vals;
    while j < |items|
      invariant 0 <= j <= |items|
      invariant out'.Valid() && out'.keys == out.keys
      invariant out'.vals == out.vals[artType := LocalPaths(workdir, artType, items[..j])]
      invariant requested == before + items[..j]
      invariant AllFetched(network, requested)
    {
      var a := items[j];
      var dst := Join(typeDir, a.filename);
      err := RaiseForStatus(network(|requested|, a.downloadUrl));
      assert requested + [a] == before + items[..j + 1];
      if err.Some? {
        requested := requested + [a];
        return;
      }
      requested := requested + [a];
      assert LocalPaths(workdir, artType, items[..j + 1]) == LocalPaths(workdir, artType, items[..j]) + [dst];
      out' := PyDicts.Set(out', artType, out'.vals[artType] + [dst]);
      j := j + 1;
    }
    assert items[..j] == items;
    err := None;
  }

  /** The state of the call after the first `i` types of `m`: the index holds
      those types with all their paths, and every request so far succeeded. */
  predicate StagedUpTo(m: Manifest, i: nat, workdir: Path, network: Network, out: Index, requested: seq<Artifact>)
    requires m.Valid()
  {
    && i <= |m.keys|
    && out.Valid() && out.keys == m.keys[..i]
    && (forall t :: t in out.vals ==> t in m.vals && out.vals[t] == LocalPaths(workdir, t, m.vals[t]))
    && requested == Concat(m.keys[..i], m.vals)
    && AllFetched(network, requested)
  }

  /** `out.setdefault(type, [])` for the `i`-th type adds it as a new, empty, last key. */
  lemma OpenType(m: Manifest, i: nat, workdir: Path, network: Network, out: Index, before: seq<Artifact>,
                 withType: Index)
    requires m.Valid() && i < |m.keys|
    requires StagedUpTo(m, i, workdir, network, out, before)
    requires withType == PyDicts.SetDefault(out, m.keys[i], [])
    ensures withType.Valid() && withType.keys == m.keys[..i + 1]
    ensures withType.vals == out.vals[m.keys[i] := []]
    ensures AllFetched(network, before)
  {
  }

  /** Finishing the `i`-th type extends the state to the first `i + 1` types. */
  lemma StagedNext(m: Manifest, i: nat, workdir: Path, network: Network, out: Index, before: seq<Artifact>,
                   withType: Index, out': Index, requested: seq<Artifact>)
    requires m.Valid() && i < |m.keys|
    requires StagedUpTo(m, i, workdir, network, out, before)
    requires withType.vals == out.vals[m.keys[i] := []]
    requires out'.Valid() && out'.keys == m.keys[..i + 1]
    requires out'.vals == withType.vals[m.keys[i] := LocalPaths(workdir, m.keys[i], m.vals[m.keys[i]])]
    requires requested == before + m.vals[m.keys[i]] && AllFetched(network, requested)
    ensures StagedUpTo(m, i + 1, workdir, network, out', requested)
  {
    ConcatPrefix(m.keys, m.vals, i);
    forall t | t in out'.vals
      ensures t in m.vals && out'.vals[t] == LocalPaths(workdir, t, m.vals[t])
    {
      if t != m.keys[i] {
        assert t in out.vals && out'.vals[t] == out.vals[t];
      }
    }
  }

  /** Requests that stop inside the `i`-th type are a prefix of the download order. */
  lemma StagedPrefix(m: Manifest, i: nat, before: seq<Artifact>, n: nat, requested: seq<Artifact>)
    requires m.Valid() && i < |m.keys| && n <= |m.vals[m.keys[i]]|
    requires before == Concat(m.keys[..i], m.vals)
    requires requested == before + m.vals[m.keys[i]][..n]
    ensures requested <= DownloadOrder(m)
  {
    ConcatPrefix(m.keys, m.vals, i);
    assert requested <= before + m.vals[m.keys[i]];
  }

  /** One iteration of the outer loop: `out.setdefault(type, [])`, then the
      downloads of that type. */
  method StageType(m: Manifest, i: nat, workdir: Path, network: Network, out: Index, before: seq<Artifact>)
    returns (out': Index, requested: seq<Artifact>, err: Option<DownloadError>)
    requires m.Valid() && i < |m.keys|
    requires StagedUpTo(m, i, workdir, network, out, before)
    ensures err.None? ==> StagedUpTo(m, i + 1, workdir, network, out', requested)
    ensures err.Some? ==> requested <= DownloadOrder(m) && AbortedAt(network, requested, err.value)
    ensures err.Some? ==>
      && |before| < |requested| <= |before| + |m.vals[m.keys[i]]|
      && requested == before + m.vals[m.keys[i]][..|requested| - |before|]
  {
    var artType := m.keys[i];
    var withType := PyDicts.SetDefault(out, artType, []);
    OpenType(m, i, workdir, network, out, before, withType);
    out', requested, err := DownloadType(withType, artType, m.vals[artType], workdir, network, before);
    if err.None? {
      StagedNext(m, i, workdir, network, out, before, withType, out', requested);
    } else {
      StagedPrefix(m, i, before, |requested| - |before|, requested);
    }
  }

  /** The two loops of the call over a manifest `m`. */
  method DownloadAll(m: Manifest, workdir: Path, network: Network)
    returns (r: Result<Index, DownloadError>, requested: seq<Artifact>)
    requires m.Valid()
    ensures r.Success? ==> requested == DownloadOrder(m) && AllFetched(network, requested)
    ensures r.Success? ==> IndexOf(r.value, m, workdir)
    ensures r.Failure? ==> requested <= DownloadOrder(m) && AbortedAt(network, requested, r.error)
  {
    var out: Index := PyDicts.Empty();
    requested := [];
    var i := 0;
    while i < |m.keys|
      invariant StagedUpTo(m, i, workdir, network, out, requested)
    {
      var err;
      out, requested, err := StageType(m, i, workdir, network, out, requested);
      if err.Some? {
        r := Failure(err.value);
        return;
      }
      i := i + 1;
    }
    assert m.keys[..i] == m.keys;
    assert forall t :: t in m.vals ==> t in out.vals;
    r := Success(out);
  }

  /** `download_artifacts(manifest, workdir)`. The call succeeds exactly when
      every download succeeds; then the index has exactly the manifest's types,
      in manifest order (including types with no artifacts), with the local
      paths of each type's artifacts, and every artifact was requested once, in
      manifest order. Otherwise the first failing download aborts the call with
      its error, and nothing after it is requested. A missing or empty manifest
      gives an empty index. */
  method DownloadArtifacts(manifest: Option<Manifest>, workdir: Path, network: Network)
    returns (r: Result<Index, DownloadError>, requested: seq<Artifact>)
    requires manifest.Some? ==> manifest.value.Valid()
    ensures var m := ManifestOrEmpty(manifest);
      m.Valid() && (r.Success? <==> AllFetched(network, DownloadOrder(m)))
    ensures var m := ManifestOrEmpty(manifest);
      r.Success? ==> m.Valid() && requested == DownloadOrder(m) && IndexOf(r.value, m, workdir)
    ensures var m := ManifestOrEmpty(manifest);
      r.Failure? ==> m.Valid() && requested <= DownloadOrder(m) && AbortedAt(network, requested, r.error)
    ensures ManifestOrEmpty(manifest).keys == [] ==> r == Success(PyDicts.Empty()) && requested == []
  {
    var m := ManifestOrEmpty(manifest);
    r, requested := DownloadAll(m, workdir, network);
    if r.Failure? {
      FailedRequestBlocks(network, requested, DownloadOrder(m), r.error);
    }
    if m.keys == [] {
      assert r.value.vals.Keys == {};
    }
  }

  /** What an index built by the call says about each type: one path per
      artifact, in order, each `workdir/<type>/<filename>`; two artifacts of a
      type with the same filename get the same path, and both entries stay. */
  lemma IndexPaths(index: Index, m: Manifest, workdir: Path, t: string)
    requires m.Valid() && IndexOf(index, m, workdir) && t in m.vals
    ensures t in index.vals && |index.vals[t]| == |m.vals[t]|
    ensures forall k :: 0 <= k < |m.vals[t]| ==> index.vals[t][k] == workdir + [t, m.vals[t][k].filename]
    ensures forall k, l :: 0 <= k < l < |m.vals[t]| && m.vals[t][k].filename == m.vals[t][l].filename ==>
      index.vals[t][k] == index.vals[t][l]
  {
  }

  /** The index has an entry for every artifact type of the manifest and no
      other, with as many paths as the type has artifacts, even for a type
      with none. */
  lemma IndexTypes(index: Index, m: Manifest, workdir: Path)
    requires m.Valid() && IndexOf(index, m, workdir)
    ensures index.vals.Keys == m.vals.Keys
    ensures forall t :: t in m.vals ==> |index.vals[t]| == |m.vals[t]|
  {
  }
}
