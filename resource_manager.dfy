/** The resource manager (src/resource_manager/mod.rs): loaders registered
    under a scheme, paths of the form `scheme:rest` routed to the loader of
    their scheme, and loaded bytes classified by MIME type. The loaders
    themselves (network and file access) are left abstract as the type
    parameter `L`. */
module ResourceManager {
  import opened Wrappers
  import opened Bytes
  import opened Utf8
  import LegacyWbg

  const COLON: char := ':'

  /** The index of the first ':' of `path`, where `splitn(2, ':')` cuts. */
  function FirstColon(path: string): (i: nat)
    requires COLON in path
    ensures i < |path| && path[i] == COLON && COLON !in path[..i]
  {
    if path[0] == COLON then 0
    else
      var i := FirstColon(path[1..]) + 1;
      assert path[..i] == [path[0]] + path[1..][..i - 1];
      i
  }

  /** The manager: a map from scheme to loader. */
  class ResourceManager<L> {
    var loaders: map<string, L>

    /** `new`: no loader is registered. */
    constructor ()
      ensures loaders == map[]
    {
      loaders := map[];
    }

    /** `default`: the CDN loader under "res". */
    constructor Default(cdn: L)
      ensures loaders == map["res" := cdn]
    {
      loaders := map["res" := cdn];
    }

    /** `insert`: registers `loader` under `k`, replacing any loader that was
        there; every other scheme keeps its loader. */
    method Insert(k: string, loader: L)
      modifies this
      ensures loaders == old(loaders)[k := loader]
    {
      loaders := loaders[k := loader];
    }

    /** `parse_path`: the text before the first ':' names the loader, the
        text after it (which may hold further ':') is handed to it. No ':'
        or an unregistered scheme gives `None`. */
    function ParsePath(path: string): (r: Option<(L, string)>)
      reads this
      ensures COLON !in path ==> r.None?
      ensures COLON in path ==>
        var i := FirstColon(path);
        (r.Some? <==> path[..i] in loaders) &&
        (r.Some? ==> r.value == (loaders[path[..i]], path[i + 1..]))
    {
      if COLON !in path then None
      else
        var i := FirstColon(path);
        var prefix := path[..i];
        if prefix in loaders then Some((loaders[prefix], path[i + 1..])) else None
    }

    /** A path built from a registered scheme without ':' and any rest is
        routed to that scheme's loader with the rest unchanged. */
    lemma RoutesToScheme(scheme: string, rest: string)
      requires scheme in loaders && COLON !in scheme
      ensures ParsePath(scheme + [COLON] + rest) == Some((loaders[scheme], rest))
    {
      var path := scheme + [COLON] + rest;
      assert path[|scheme|] == COLON;
      assert path[..|scheme|] == scheme;
      assert COLON in path;
      assert path[|scheme| + 1..] == rest;
    }

    /** Every successful parse splits the path into a registered scheme
        without ':', a ':' and the rest. */
    lemma ParsedPathSplits(path: string)
      requires ParsePath(path).Some?
      ensures exists scheme :: (scheme in loaders && COLON !in scheme &&
        path == scheme + [COLON] + ParsePath(path).value.1 && ParsePath(path).value.0 == loaders[scheme])
    {
      var i := FirstColon(path);
      assert path == path[..i] + [COLON] + path[i + 1..];
    }
  }

  /** `Resource`: raw bytes, UTF-8 text, or an imported asset. */
  datatype Resource = Binary(data: seq<byte>) | Text(text: seq<byte>) | AssetResource(asset: LegacyWbg.Asset)

  /** What `to_resource` does: `Missing` is its `None`, `Aborted` a panic
      of one of its `unwrap`s. */
  datatype Outcome = Missing | Aborted | Loaded(resource: Resource)

  const OCTET_STREAM: string := "application/octet-stream"
  const TEXT_XML: string := "text/xml"
  const TEXT_HTML: string := "text/html"
  const CCP_RED: string := "application/x-ccp-red"
  const CCP_WBG: string := "application/x-ccp-wbg"

  predicate IsTextMime(mime: string)
  {
    mime == TEXT_XML || mime == TEXT_HTML
  }

  /** `to_resource`: text MIME types must carry UTF-8; the wbg MIME type is
      imported with the copying importer, which must succeed; everything
      else, known or not, is kept as binary. */
  function ToResource(raw: Option<(string, seq<byte>)>): (r: Outcome)
    ensures raw.None? <==> r.Missing?
    ensures raw.Some? && !IsTextMime(raw.value.0) && raw.value.0 != CCP_WBG ==> r == Loaded(Binary(raw.value.1))
    ensures raw.Some? && IsTextMime(raw.value.0) ==>
      r == if ValidUtf8(raw.value.1) then Loaded(Text(raw.value.1)) else Aborted
    ensures raw.Some? && raw.value.0 == CCP_WBG ==>
      r == if LegacyWbg.ImportAt(raw.value.1).Some? then Loaded(AssetResource(LegacyWbg.ImportAt(raw.value.1).value)) else Aborted
  {
    match raw
    case None => Missing
    case Some((mime, data)) =>
      if mime == OCTET_STREAM then Loaded(Binary(data))
      else if mime == TEXT_XML || mime == TEXT_HTML then
        if ValidUtf8(data) then Loaded(Text(data)) else Aborted
      else if mime == CCP_RED then Loaded(Binary(data))
      else if mime == CCP_WBG then
        match LegacyWbg.ImportAt(data)
        case None => Aborted
        case Some(asset) => Loaded(AssetResource(asset))
      else Loaded(Binary(data))
  }

  /** A loaded resource keeps the bytes it was given: a binary or a text
      resource holds them unchanged, and text is always well-formed UTF-8. */
  lemma ResourceKeepsBytes(mime: string, data: seq<byte>)
    requires ToResource(Some((mime, data))).Loaded?
    ensures var res := ToResource(Some((mime, data))).resource;
      (res.Binary? ==> res.data == data) && (res.Text? ==> res.text == data && ValidUtf8(res.text)) &&
      (res.AssetResource? <==> mime == CCP_WBG)
  {
  }
}
