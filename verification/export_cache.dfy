/**
 * `previewCanvas`: export the composited canvas to a temporary file once,
 * remember the path in `canvasImage`, and open the image viewer on a
 * one-element list. The conversion (`wx.canvasToTempFilePath`) is a host
 * call; its outcome is a parameter.
 */
module ExportCache {
  import opened Optional

  /** What the host export reports: the temporary file's path, or no success callback at all. */
  datatype Conversion = Converted(tempFilePath: string) | ConversionFailed

  /** One `previewCanvas` call: the new `canvasImage`, whether the export was invoked, what the viewer got. */
  datatype PreviewStep = PreviewStep(canvasImage: string, converted: bool, shown: Option<seq<string>>)

  /**
   * A preview from a state whose cached path is `canvasImage` (the empty
   * string is JavaScript's falsy "nothing cached"). `conversion` is what the
   * export would report if it were invoked.
   */
  function PreviewCanvas(canvasImage: string, conversion: Conversion): (r: PreviewStep)
    ensures r.converted <==> canvasImage == ""
    ensures canvasImage != "" ==> r.canvasImage == canvasImage && r.shown == Some([canvasImage])
    ensures canvasImage == "" ==> (r.shown.Some? <==> conversion.Converted?)
    ensures canvasImage == "" && conversion.Converted? ==>
      r.canvasImage == conversion.tempFilePath && r.shown == Some([conversion.tempFilePath])
    ensures r.shown.Some? ==> r.shown.value == [r.canvasImage]
    ensures conversion.ConversionFailed? ==> r.canvasImage == canvasImage
  {
    if canvasImage == "" then
      match conversion
      case Converted(path) => PreviewStep(path, true, Some([path]))
      case ConversionFailed => PreviewStep(canvasImage, true, None)
    else
      PreviewStep(canvasImage, false, Some([canvasImage]))
  }

  /** A run of `previewCanvas` calls: final cache, exports invoked, lists handed to the viewer. */
  datatype Session = Session(canvasImage: string, conversions: nat, shown: seq<seq<string>>)

  /** Calls `previewCanvas` once per element of `outcomes`, in order. */
  function PreviewMany(canvasImage: string, outcomes: seq<Conversion>): Session
    decreases |outcomes|
  {
    if outcomes == [] then Session(canvasImage, 0, [])
    else
      var step := PreviewCanvas(canvasImage, outcomes[0]);
      var rest := PreviewMany(step.canvasImage, outcomes[1..]);
      Session(
        rest.canvasImage,
        (if step.converted then 1 else 0) + rest.conversions,
        (if step.shown.Some? then [step.shown.value] else []) + rest.shown)
  }

  /** The host never reports an empty temporary path. */
  predicate PathsNonEmpty(outcomes: seq<Conversion>)
  {
    forall k :: 0 <= k < |outcomes| && outcomes[k].Converted? ==> outcomes[k].tempFilePath != ""
  }

  /** How many calls it takes until an export succeeds (all of them if none does). */
  function CallsUntilExported(outcomes: seq<Conversion>): (n: nat)
    ensures n <= |outcomes|
    ensures forall k :: 0 <= k < n - 1 ==> outcomes[k].ConversionFailed?
    ensures n < |outcomes| ==> n > 0 && outcomes[n - 1].Converted?
    decreases |outcomes|
  {
    if outcomes == [] then 0
    else if outcomes[0].Converted? then 1
    else 1 + CallsUntilExported(outcomes[1..])
  }

  /** Once a path is cached, no call exports again, the cache stays, and every call shows it. */
  lemma {:induction false} CachedNeverConverts(canvasImage: string, outcomes: seq<Conversion>)
    requires canvasImage != ""
    ensures PreviewMany(canvasImage, outcomes).conversions == 0
    ensures PreviewMany(canvasImage, outcomes).canvasImage == canvasImage
    ensures |PreviewMany(canvasImage, outcomes).shown| == |outcomes|
    ensures forall k :: 0 <= k < |outcomes| ==> PreviewMany(canvasImage, outcomes).shown[k] == [canvasImage]
    decreases |outcomes|
  {
    if outcomes != [] {
      CachedNeverConverts(canvasImage, outcomes[1..]);
    }
  }

  /**
   * From an empty cache, calls export until the first success and never
   * after it (a failure is not cached); once one has succeeded, its path is
   * cached and every list shown is that one path.
   */
  lemma {:induction false} ExportsUntilFirstSuccess(outcomes: seq<Conversion>)
    requires PathsNonEmpty(outcomes)
    ensures PreviewMany("", outcomes).conversions == CallsUntilExported(outcomes)
    ensures
      var n := CallsUntilExported(outcomes);
      n > 0 && outcomes[n - 1].Converted? ==>
        var path := outcomes[n - 1].tempFilePath;
        && PreviewMany("", outcomes).canvasImage == path
        && |PreviewMany("", outcomes).shown| == |outcomes| - n + 1
        && forall k :: 0 <= k < |PreviewMany("", outcomes).shown| ==> PreviewMany("", outcomes).shown[k] == [path]
    ensures (forall k :: 0 <= k < |outcomes| ==> outcomes[k].ConversionFailed?) ==>
      PreviewMany("", outcomes) == Session("", |outcomes|, [])
    decreases |outcomes|
  {
    if outcomes != [] {
      match outcomes[0]
      case Converted(path) =>
        assert path != "";
        CachedNeverConverts(path, outcomes[1..]);
      case ConversionFailed =>
        assert PathsNonEmpty(outcomes[1..]) by {
          forall k | 0 <= k < |outcomes[1..]| && outcomes[1..][k].Converted?
            ensures outcomes[1..][k].tempFilePath != ""
          {
            assert outcomes[1..][k] == outcomes[k + 1];
          }
        }
        ExportsUntilFirstSuccess(outcomes[1..]);
        if forall k :: 0 <= k < |outcomes| ==> outcomes[k].ConversionFailed? {
          assert forall k :: 0 <= k < |outcomes[1..]| ==> outcomes[1..][k] == outcomes[k + 1];
        }
    }
  }

  /** Two previews of the same canvas export once and show the same path twice. */
  lemma PreviewTwiceExportsOnce(path: string, second: Conversion)
    requires path != ""
    ensures PreviewMany("", [Converted(path), second]) == Session(path, 1, [[path], [path]])
  {
    assert [Converted(path), second][1..] == [second];
    assert [second][1..] == [];
    assert PreviewMany(path, []) == Session(path, 0, []);
    assert PreviewMany(path, [second]) == Session(path, 0, [[path]]);
  }

  /**
   * An export reporting an empty path is not remembered, because the empty
   * string is falsy: the next preview exports again.
   */
  lemma EmptyPathNotCached(second: Conversion)
    ensures PreviewCanvas("", Converted("")).canvasImage == ""
    ensures PreviewMany("", [Converted(""), second]).conversions == 2
  {
    assert [Converted(""), second][1..] == [second];
    assert [second][1..] == [];
    assert PreviewMany("", [second]).conversions == 1;
  }
}
