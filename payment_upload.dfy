/**
 * The embeddable upload widget: the same picker and upload sequence as the
 * payment page, with its own bucket and key prefix, the storage path itself
 * written into the registration, and the parent's success callback.
 */
module PaymentUpload {
  import opened Wrappers
  import opened Backend
  import opened Screenshot

  const Bucket := "payments"
  const KeyPrefix := "screenshots/"

  class Uploader {
    /** The `registrationId` prop. */
    const registrationId: string
    var isUploading: bool
    var uploadSuccess: bool
    var selectedFile: Option<File>
    /** How many times `onUploadSuccess` has been called. */
    var successCallbacks: nat

    constructor (registrationId: string)
      ensures this.registrationId == registrationId
      ensures !isUploading && !uploadSuccess && selectedFile == None && successCallbacks == 0
    {
      this.registrationId := registrationId;
      isUploading, uploadSuccess, selectedFile, successCallbacks := false, false, None, 0;
    }

    /**
     * The upload button exists only until an upload succeeds (the success view
     * replaces the form), and is enabled only with a file selected and no
     * upload running.
     */
    predicate UploadEnabled()
      reads this
    {
      !uploadSuccess && selectedFile.Some? && !isUploading
    }

    method HandleFileSelect(picked: Option<File>) returns (s: Selection)
      modifies this`selectedFile
      ensures s == CheckFile(picked)
      ensures selectedFile == AfterPick(old(selectedFile), picked)
      ensures s == Accepted && !isUploading && !uploadSuccess ==> UploadEnabled()
    {
      s := CheckFile(picked);
      if s == Accepted {
        selectedFile := picked;
      }
    }

    /**
     * `handleUpload`: the record's `payment_screenshot` becomes the storage
     * key, and `onUploadSuccess` runs once, only when upload and update both
     * succeed.
     */
    method HandleUpload(store: Store, now: nat, uploadReply: Reply, updateReply: Reply) returns (o: UploadOutcome)
      modifies this`isUploading, this`uploadSuccess, this`successCallbacks
      modifies store`objects, store`uploads, store`registrations, store`updates
      ensures old(selectedFile).None? ==>
        o == NoFileSelected && isUploading == old(isUploading)
        && store.objects == old(store.objects) && store.uploads == old(store.uploads)
        && store.registrations == old(store.registrations) && store.updates == old(store.updates)
      ensures old(selectedFile).Some? ==>
        var file := old(selectedFile).value;
        var key := ObjectKey(Bucket, StorageKey(KeyPrefix, registrationId, now, file.name));
        var uploaded := UploadAnswer(old(store.objects), key, uploadReply);
        && !isUploading
        && o == UploadResult(uploaded, updateReply)
        && store.uploads == old(store.uploads) + [key]
        && store.objects == (if uploaded.Done? then old(store.objects)[key := file] else old(store.objects))
        && store.updates == (if uploaded.Done? then old(store.updates) + [(registrationId, key.path)]
                             else old(store.updates))
        && store.registrations == (if o == Uploaded then WithScreenshot(old(store.registrations), registrationId, key.path)
                                   else old(store.registrations))
      ensures uploadSuccess == (old(uploadSuccess) || o == Uploaded)
      ensures successCallbacks == old(successCallbacks) + (if o == Uploaded then 1 else 0)
      ensures UploadEnabled() <==> old(selectedFile).Some? && !old(uploadSuccess) && o != Uploaded
    {
      if selectedFile.None? {
        o := NoFileSelected;
        return;
      }
      isUploading := true;
      var file := selectedFile.value;
      var path := StorageKey(KeyPrefix, registrationId, now, file.name);
      var uploaded := store.Upload(ObjectKey(Bucket, path), file, uploadReply);
      if uploaded.Failed? {
        o := UploadFailed;
      } else {
        var updated := store.UpdateScreenshot(registrationId, path, updateReply);
        if updated.Failed? {
          o := UpdateFailed;
        } else {
          uploadSuccess := true;
          successCallbacks := successCallbacks + 1;
          o := Uploaded;
        }
      }
      isUploading := false;
    }
  }
}
