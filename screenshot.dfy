/**
 * The rules both payment components share: which picked file is accepted as
 * a payment screenshot, how an upload attempt ends, and the storage key an
 * upload goes to.
 */
module Screenshot {
  import opened Wrappers
  import opened JsText
  import opened Backend

  /** 5 MiB, the largest screenshot accepted. */
  const MaxBytes: nat := 5 * 1024 * 1024

  /** What `handleFileSelect` makes of the picked file, in the order it checks. */
  datatype Selection = NothingPicked | NotAnImage | TooLarge | Accepted

  function CheckFile(picked: Option<File>): (s: Selection)
    ensures s == NothingPicked <==> picked.None?
    ensures s == Accepted <==>
      picked.Some? && StartsWith(picked.value.mimeType, "image/") && picked.value.size <= 5242880
    ensures s == TooLarge <==>
      picked.Some? && StartsWith(picked.value.mimeType, "image/") && picked.value.size > 5242880
  {
    match picked
    case None => NothingPicked
    case Some(file) =>
      if !StartsWith(file.mimeType, "image/") then NotAnImage
      else if file.size > MaxBytes then TooLarge
      else Accepted
  }

  /** `selectedFile` after a pick: the new file when it is accepted, the old selection otherwise. */
  function AfterPick(selected: Option<File>, picked: Option<File>): (r: Option<File>)
    ensures CheckFile(picked) == Accepted ==> r == picked && r.Some?
    ensures CheckFile(picked) != Accepted ==> r == selected
  {
    if CheckFile(picked) == Accepted then picked else selected
  }

  /** `name.split('.').pop() || 'png'`. */
  function Extension(name: string): (e: string)
    ensures e != [] && '.' !in e
  {
    var last := LastSegment(name);
    if last == [] then
      PngHasNoDot();
      "png"
    else last
  }

  /** The fallback extension has no dot. */
  lemma PngHasNoDot()
    ensures '.' !in "png"
  {
  }

  /** A name `base.ext` whose `ext` is non-empty and dot-free keeps `ext`; a name ending in '.' gets "png". */
  lemma ExtensionCases(base: string, ext: string)
    requires '.' !in ext
    ensures Extension(base + "." + ext) == if ext == [] then "png" else ext
  {
    LastSegmentAfterDot(base, ext);
  }

  /** A non-empty name without a dot is its own extension, and the empty name gets "png". */
  lemma ExtensionWithoutDot(name: string)
    requires '.' !in name
    ensures Extension(name) == if name == [] then "png" else name
  {
    LastSegmentWithoutDot(name);
  }

  /** How `handleUpload` ends; each failure has its own notice. */
  datatype UploadOutcome = NoFileSelected | UploadFailed | UpdateFailed | Uploaded

  /** Upload first, then the record update; the update's answer matters only if the upload went through. */
  function UploadResult(upload: Reply, update: Reply): (o: UploadOutcome)
    ensures o == Uploaded <==> upload.Done? && update.Done?
    ensures o == UploadFailed <==> upload.Failed?
    ensures o != NoFileSelected
  {
    if upload.Failed? then UploadFailed else if update.Failed? then UpdateFailed else Uploaded
  }

  /**
   * Whatever the answers, a registration without a screenshot gets one exactly
   * when both the upload and the update succeed, and then it is the given value.
   */
  lemma ScreenshotOnlyAfterBothSucceed(rows: map<string, Registration>, id: string, value: string, upload: Reply, update: Reply)
    requires id in rows && rows[id].paymentScreenshot == None
    ensures var after := if UploadResult(upload, update) == Uploaded then WithScreenshot(rows, id, value) else rows;
      id in after
      && (after[id].paymentScreenshot.Some? <==> upload.Done? && update.Done?)
      && (after[id].paymentScreenshot.Some? ==> after[id].paymentScreenshot.value == value)
  {
  }

  /** `${prefix}${id}-${timestamp}.${extension}`. */
  function StorageKey(prefix: string, id: string, timestamp: nat, name: string): string {
    prefix + id + "-" + NatToDecimal(timestamp) + "." + Extension(name)
  }

  /** The stored object keeps the picked file's extension: it is what follows the key's last dot. */
  lemma StorageKeyExtension(prefix: string, id: string, timestamp: nat, name: string)
    ensures LastSegment(StorageKey(prefix, id, timestamp, name)) == Extension(name)
  {
    LastSegmentAfterDot(prefix + id + "-" + NatToDecimal(timestamp), Extension(name));
  }

  /**
   * For one registration, the key tells uploads apart: two keys that are equal
   * came from the same timestamp and the same extension.
   */
  lemma StorageKeySeparatesAttempts(prefix: string, id: string, t1: nat, n1: string, t2: nat, n2: string)
    requires StorageKey(prefix, id, t1, n1) == StorageKey(prefix, id, t2, n2)
    ensures t1 == t2 && Extension(n1) == Extension(n2)
  {
    StorageKeyTail(prefix, id, t1, n1);
    StorageKeyTail(prefix, id, t2, n2);
    DecimalHasNoDot(t1);
    DecimalHasNoDot(t2);
    FirstDotSplit(NatToDecimal(t1), Extension(n1), NatToDecimal(t2), Extension(n2));
    NatToDecimalInjective(t1, t2);
  }

  /** What follows the registration's part of a key is `<timestamp>.<extension>`. */
  lemma StorageKeyTail(prefix: string, id: string, t: nat, name: string)
    ensures var head := prefix + id + "-"; var key := StorageKey(prefix, id, t, name);
      |head| <= |key| && key[|head|..] == NatToDecimal(t) + "." + Extension(name)
  {
    var head := prefix + id + "-";
    assert StorageKey(prefix, id, t, name) == head + (NatToDecimal(t) + "." + Extension(name));
  }

  /** A rendered number has no dot. */
  lemma DecimalHasNoDot(t: nat)
    ensures '.' !in NatToDecimal(t)
  {
    var d := NatToDecimal(t);
    assert forall i :: 0 <= i < |d| ==> IsDigit(d[i]);
  }
}
