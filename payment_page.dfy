/**
 * The `/payment` page: the guard on the navigation state, the file picker and
 * the upload, which stores the screenshot, writes its public URL into the
 * registration and, only when both succeeded, switches to the success view and
 * schedules the move to `/success` carrying the team name.
 */
module PaymentPage {
  import opened Wrappers
  import opened Backend
  import opened Navigation
  import opened Screenshot

  const Bucket := "payment-screenshots"
  const KeyPrefix := "payments/"

  /** What the page shows on entry. */
  datatype Entry = InvalidNavigation | Checkout(nav: PaymentNav)

  /** The guard: without navigation state, or with an empty id, only the invalid-navigation view exists. */
  function Enter(state: Option<PaymentNav>): (e: Entry)
    ensures e == InvalidNavigation <==> state.None? || state.value.id == ""
    ensures e.Checkout? ==> e.nav == state.value && e.nav.id != ""
  {
    if state.None? || state.value.id == "" then InvalidNavigation else Checkout(state.value)
  }

  class CheckoutPage {
    const registrationId: string
    const teamName: string
    const teamLeaderName: string
    /** `getPublicUrl`: the storage client's URL for a path in the bucket. */
    const publicUrl: string -> string
    var isUploading: bool
    var uploadSuccess: bool
    var selectedFile: Option<File>
    /** The delayed `navigate('/success', {state})`, once scheduled. */
    var redirect: Option<SuccessNav>

    /** Only a state that passes the guard gets a page with a file picker and an upload button. */
    constructor (state: Option<PaymentNav>, publicUrl: string -> string)
      requires Enter(state).Checkout?
      ensures registrationId == state.value.id && registrationId != ""
      ensures teamName == state.value.teamName && teamLeaderName == state.value.teamLeaderName
      ensures this.publicUrl == publicUrl
      ensures !isUploading && !uploadSuccess && selectedFile == None && redirect == None
    {
      registrationId := state.value.id;
      teamName := state.value.teamName;
      teamLeaderName := state.value.teamLeaderName;
      this.publicUrl := publicUrl;
      isUploading, uploadSuccess, selectedFile, redirect := false, false, None, None;
    }

    /**
     * The upload button exists only until an upload succeeds (the success view
     * replaces the form), and is enabled only with a file selected and no
     * upload running.
     */
    predicate UploadEnabled()
      reads this
    {
      !uploadSuccess && selectedFile.Some? && !isUploading
    }

    method HandleFileSelect(picked: Option<File>) returns (s: Selection)
      modifies this`selectedFile
      ensures s == CheckFile(picked)
      ensures selectedFile == AfterPick(old(selectedFile), picked)
      ensures s == Accepted && !isUploading && !uploadSuccess ==> UploadEnabled()
    {
      s := CheckFile(picked);
      if s == Accepted {
        selectedFile := picked;
      }
    }

    /**
     * `handleUpload`: with no file it only reports; otherwise it uploads under
     * a fresh key, updates the record only after a successful upload, and
     * clears `isUploading` on every path, so after a failed attempt the button
     * is enabled again for a retry, while a success leaves only the success view.
     */
    method HandleUpload(store: Store, now: nat, uploadReply: Reply, updateReply: Reply) returns (o: UploadOutcome)
      modifies this`isUploading, this`uploadSuccess, this`redirect
      modifies store`objects, store`uploads, store`registrations, store`updates
      ensures old(selectedFile).None? ==>
        o == NoFileSelected && isUploading == old(isUploading)
        && store.objects == old(store.objects) && store.uploads == old(store.uploads)
        && store.registrations == old(store.registrations) && store.updates == old(store.updates)
      ensures old(selectedFile).Some? ==>
        var file := old(selectedFile).value;
        var key := ObjectKey(Bucket, StorageKey(KeyPrefix, registrationId, now, file.name));
        var uploaded := UploadAnswer(old(store.objects), key, uploadReply);
        && !isUploading
        && o == UploadResult(uploaded, updateReply)
        && store.uploads == old(store.uploads) + [key]
        && store.objects == (if uploaded.Done? then old(store.objects)[key := file] else old(store.objects))
        && store.updates == (if uploaded.Done? then old(store.updates) + [(registrationId, publicUrl(key.path))]
                             else old(store.updates))
        && store.registrations == (if o == Uploaded then WithScreenshot(old(store.registrations), registrationId, publicUrl(key.path))
                                   else old(store.registrations))
      ensures uploadSuccess == (old(uploadSuccess) || o == Uploaded)
      ensures redirect == if o == Uploaded then Some(SuccessNav(teamName)) else old(redirect)
      ensures UploadEnabled() <==> old(selectedFile).Some? && !old(uploadSuccess) && o != Uploaded
    {
      if selectedFile.None? {
        o := NoFileSelected;
        return;
      }
      isUploading := true;
      var file := selectedFile.value;
      var path := StorageKey(KeyPrefix, registrationId, now, file.name);
      var uploaded := store.Upload(ObjectKey(Bucket, path), file, uploadReply);
      if uploaded.Failed? {
        o := UploadFailed;
      } else {
        var url := publicUrl(path);
        var updated := store.UpdateScreenshot(registrationId, url, updateReply);
        if updated.Failed? {
          o := UpdateFailed;
        } else {
          uploadSuccess := true;
          redirect := Some(SuccessNav(teamName));
          o := Uploaded;
        }
      }
      isUploading := false;
    }
  }
}
