/**
 Architecture detection, the normalisation `render` applies to its result,
 the install button's disable rule and the install operation itself.
 */
module Architecture {
  import opened Text
  import opened JsValues
  import opened Commands

  /** `{raw: _('Unknown'), mapped: 'unknown'}`, the degraded detection result. */
  function UnknownArch(): JsValue {
    Obj(map["raw" := Str("Unknown"), "mapped" := Str("unknown")])
  }

  /** Where the download helper is told to put the binary. */
  const TargetPath: string := "/tmp/nping-agent"

  /**
   `getArchitecture`: the helper's result, or the degraded value when the call
   is rejected, exits non-zero, or prints something `JSON.parse` rejects.
   */
  function DetectArchitecture(call: Option<ExecResult>, parse: string -> Option<JsValue>): (v: JsValue)
    ensures call.None? || call.value.code != 0 || parse(call.value.stdout).None? ==> v == UnknownArch()
    ensures call.Some? && call.value.code == 0 && parse(call.value.stdout).Some? ==> v == parse(call.value.stdout).value
  {
    match call
    case None => UnknownArch()
    case Some(res) =>
      if res.code != 0 then UnknownArch()
      else match parse(res.stdout)
        case None => UnknownArch()
        case Some(info) => info
  }

  /** The architecture value carries a usable `mapped` name: truthy and not `'unknown'`. */
  predicate HasUsableMapping(a: JsValue) {
    Truthy(Field(a, "mapped")) && Field(a, "mapped") != Str("unknown")
  }

  /** `renderFileNotExist` first replaces a falsy or non-object value by the degraded one. */
  function ShownArch(v: JsValue): (a: JsValue)
    ensures a.Obj? || a.Arr?
    ensures HasUsableMapping(a) <==> v.Obj? && HasUsableMapping(v)
  {
    if !Truthy(v) || !IsObject(v) then UnknownArch() else v
  }

  /** `isDisabled = !architecture.mapped || architecture.mapped === 'unknown'`. */
  predicate InstallButtonDisabled(v: JsValue) {
    var a := ShownArch(v);
    !Truthy(Field(a, "mapped")) || Field(a, "mapped") == Str("unknown")
  }

  datatype InstallOutcome =
    | InvalidArchitecture   // not an object, or no truthy `mapped`
    | UnknownArchitecture   // `mapped === 'unknown'`
    | InstallCallFailed     // the exec call itself was rejected
    | InstallFailed(failure: Failure)
    | Installed

  /**
   `downloadAndInstallAgent`: reject a bad architecture before running anything;
   otherwise run the download helper once and judge its result.
   */
  function InstallAgent(arch: JsValue, run: Runner): (r: Run<InstallOutcome>)
    ensures r.issued == [] <==> !(arch.Obj? && HasUsableMapping(arch))
    ensures r.issued == [] ==> r.outcome == InvalidArchitecture || r.outcome == UnknownArchitecture
    ensures r.issued != [] ==> r.issued == [Download(Field(arch, "mapped"), TargetPath)]
    ensures r.outcome == UnknownArchitecture <==> arch.Obj? && Field(arch, "mapped") == Str("unknown")
    ensures r.outcome == InstallCallFailed <==> r.issued != [] && run(r.issued[0]).None?
    ensures r.outcome == Installed <==>
      r.issued != [] && run(r.issued[0]).Some? && ReportsSuccess(run(r.issued[0]).value)
    ensures r.outcome.InstallFailed? <==>
      r.issued != [] && run(r.issued[0]).Some? && !ReportsSuccess(run(r.issued[0]).value)
    ensures r.outcome.InstallFailed? ==>
      r.outcome.failure == Classify(InstallOp, run(r.issued[0]).value.stderr)
  {
    var mapped := Field(arch, "mapped");
    if !Truthy(arch) || !IsObject(arch) || !Truthy(mapped) then Run(InvalidArchitecture, [])
    else if mapped == Str("unknown") then Run(UnknownArchitecture, [])
    else
      var cmd := Download(mapped, TargetPath);
      match run(cmd)
      case None => Run(InstallCallFailed, [cmd])
      case Some(res) =>
        if !ReportsSuccess(res) then Run(InstallFailed(Classify(InstallOp, res.stderr)), [cmd])
        else Run(Installed, [cmd])
  }

  /**
   The install button is disabled exactly when clicking it would be rejected
   without running anything.
   */
  lemma InstallButtonMatchesGuard(v: JsValue, run: Runner)
    ensures InstallButtonDisabled(v) <==> InstallAgent(ShownArch(v), run).issued == []
  {
  }

  // ---------------------------------------------------------------------------
  // Normalisation in `render`
  // ---------------------------------------------------------------------------

  /**
   `render`'s normalisation as written: a falsy or non-object value becomes the
   degraded value; an object without a truthy `mapped` becomes
   `{raw: s, mapped: s}` with `s = toString()`; anything else is kept.
   */
  function NormalizeArchAsWritten(v: JsValue): (a: JsValue)
    ensures !Truthy(v) || !IsObject(v) ==> a == UnknownArch()
    ensures Truthy(v) && IsObject(v) && !Truthy(Field(v, "mapped")) ==>
      a == Obj(map["raw" := Str(ToString(v)), "mapped" := Str(ToString(v))])
    ensures Truthy(v) && IsObject(v) && Truthy(Field(v, "mapped")) ==> a == v
  {
    if !Truthy(v) || !IsObject(v) then UnknownArch()
    else if !Truthy(Field(v, "mapped")) then
      var s := ToString(v);
      Obj(map["raw" := Str(s), "mapped" := Str(if s == "unknown" then "unknown" else s)])
    else v
  }

  /**
   The detector supplied a usable architecture name: either the current object
   shape with a usable `mapped`, or the legacy bare string.
   */
  predicate ProvidesArch(v: JsValue) {
    (v.Obj? && HasUsableMapping(v)) || (v.Str? && v.s != "" && v.s != "unknown")
  }

  /** The architecture name the detector supplied, in either shape. */
  function DeclaredName(v: JsValue): JsValue {
    if v.Str? then v else Field(v, "mapped")
  }

  /** An object lacking `mapped` is offered for install under the name `[object Object]`. */
  lemma AsWrittenInventsArchitecture(run: Runner)
    ensures var v := Obj(map["raw" := Str("mips"), "mapped" := Str("")]);
      && !ProvidesArch(v)
      && !InstallButtonDisabled(NormalizeArchAsWritten(v))
      && InstallAgent(NormalizeArchAsWritten(v), run).issued == [Download(Str("[object Object]"), TargetPath)]
  {
    var v := Obj(map["raw" := Str("mips"), "mapped" := Str("")]);
    assert !Truthy(Field(v, "mapped"));
    assert ToString(v) == "[object Object]";
  }

  /** The legacy bare-string result the comment promises to accept is discarded instead. */
  lemma AsWrittenDropsLegacyString()
    ensures ProvidesArch(Str("arm"))
    ensures NormalizeArchAsWritten(Str("arm")) == UnknownArch()
    ensures InstallButtonDisabled(NormalizeArchAsWritten(Str("arm")))
  {
  }

  /**
   The normalisation `render` evidently intends: a bare string `s` becomes
   `{raw: s, mapped: s}`, an object with a truthy `mapped` is kept, and
   everything else degrades to the unknown architecture.
   */
  function NormalizeArch(v: JsValue): (a: JsValue)
    ensures a.Obj? && Truthy(Field(a, "mapped"))
    ensures HasUsableMapping(a) <==> ProvidesArch(v)
    ensures HasUsableMapping(a) ==> Field(a, "mapped") == DeclaredName(v)
    ensures !HasUsableMapping(a) ==> Field(a, "mapped") == Str("unknown")
  {
    if v.Str? && v.s != "" then Obj(map["raw" := v, "mapped" := v])
    else if v.Obj? && Truthy(Field(v, "mapped")) then v
    else UnknownArch()
  }

  /** Normalising twice changes nothing. */
  lemma NormalizeArchIdempotent(v: JsValue)
    ensures NormalizeArch(NormalizeArch(v)) == NormalizeArch(v)
  {
  }

  /**
   Detection never fails the page: whatever the helper and the parser do,
   the install page gets an object, and a failed detection leaves install
   disabled so no download can be issued. This holds for the normalisation
   `render` runs and for the corrected one alike.
   */
  lemma DetectionDegradesSafely(call: Option<ExecResult>, parse: string -> Option<JsValue>, run: Runner)
    ensures NormalizeArchAsWritten(DetectArchitecture(call, parse)).Obj?
    ensures NormalizeArch(DetectArchitecture(call, parse)).Obj?
    ensures call.None? || call.value.code != 0 || parse(call.value.stdout).None? ==>
      && InstallButtonDisabled(NormalizeArchAsWritten(DetectArchitecture(call, parse)))
      && InstallAgent(NormalizeArchAsWritten(DetectArchitecture(call, parse)), run).issued == []
      && InstallButtonDisabled(NormalizeArch(DetectArchitecture(call, parse)))
      && InstallAgent(NormalizeArch(DetectArchitecture(call, parse)), run).issued == []
  {
  }

  /** With the corrected normalisation, install is offered exactly for a usable detected name, and downloads that name. */
  lemma InstallOfferedExactlyForDetectedName(v: JsValue, run: Runner)
    ensures !InstallButtonDisabled(NormalizeArch(v)) <==> ProvidesArch(v)
    ensures ProvidesArch(v) ==>
      InstallAgent(NormalizeArch(v), run).issued == [Download(DeclaredName(v), TargetPath)]
  {
  }
}
