/**
 * The submission panel: the user picks or drops one file, and Submit
 * hashes its bytes and asks the wallet to record the digest on the ledger,
 * then shows a status record for the way the attempt ended.
 */
module Submit {
  import opened Common

  /** The `type` field of the status record. */
  datatype Kind = Success | Error

  /**
   * The status record shown in the panel: kind, icon or message, the file
   * name printed in bold, and the text after it. A field the source leaves
   * undefined is None.
   */
  datatype Status = Status(kind: Option<Kind>, message: Option<string>, fileNameBold: Option<string>, suffix: Option<string>)

  /** The fields of a thrown error the classification reads: `err.reason` and `err.message`. */
  datatype ErrorInfo = ErrorInfo(reason: Option<string>, message: Option<string>)

  /**
   * How the wallet part of a submission ends once the wallet object is
   * there: `getSigner` throws (so `submitIdeaHash` is never called), the
   * `submitIdeaHash` call throws (the user declines the prompt, say), the
   * confirmation wait throws, or all of them return.
   */
  datatype WriteOutcome =
    | SignerFailed(err: ErrorInfo)
    | SendFailed(err: ErrorInfo)
    | WaitFailed(err: ErrorInfo)
    | Confirmed

  const Warning := "\U{26A0}\U{FE0F}"
  const DuplicateReason := "Hash already submitted"
  const RejectedMessage := "user rejected"

  /** Nothing shown: the initial status and the one Remove restores. */
  const Cleared := Status(None, None, None, None)
  const NoFileStatus := Status(Some(Error), Some(Cross), Some(""), Some("Please select a file first"))
  const NoWalletStatus := Status(Some(Error), Some("Please install MetaMask."), None, None)
  const CancelledStatus := Status(Some(Error), Some(Cross + " You cancelled the transaction."), None, None)
  const FailedStatus := Status(Some(Error), Some(Cross + " Failed to submit file."), None, None)

  function SuccessStatus(name: string): Status
  {
    Status(Some(Success), Some(Tick), Some(name), Some("successfully timestamped on the blockchain"))
  }

  function DuplicateStatus(name: string): Status
  {
    Status(Some(Error), Some(Warning), Some(name), Some("has already been submitted and timestamped"))
  }

  /** `part` occurs in `s` starting at index `i`. */
  ghost predicate OccursAt(s: string, part: string, i: int)
  {
    0 <= i && i + |part| <= |s| && s[i..i + |part|] == part
  }

  /** `s?.includes(part)`: an absent string includes nothing. */
  ghost predicate Mentions(s: Option<string>, part: string)
  {
    s.Some? && exists i :: OccursAt(s.value, part, i)
  }

  /** `s.includes(part)`: a left-to-right scan for `part`. */
  function Includes(s: string, part: string): (b: bool)
    ensures b <==> exists i :: OccursAt(s, part, i)
    decreases |s|
  {
    if |part| > |s| then false
    else if s[..|part|] == part then assert OccursAt(s, part, 0); true
    else
      var b := Includes(s[1..], part);
      assert forall j :: OccursAt(s[1..], part, j) ==> OccursAt(s, part, j + 1) by {
        forall j | OccursAt(s[1..], part, j) ensures OccursAt(s, part, j + 1) {
          assert s[1..][j..j + |part|] == s[j + 1..j + 1 + |part|];
        }
      }
      assert forall i :: OccursAt(s, part, i) ==> OccursAt(s[1..], part, i - 1) by {
        forall i | OccursAt(s, part, i) ensures OccursAt(s[1..], part, i - 1) {
          assert i != 0;
          assert s[1..][i - 1..i - 1 + |part|] == s[i..i + |part|];
        }
      }
      b
  }

  /**
   * The catch branch of handleSubmit: a reason mentioning a duplicate wins,
   * then a message mentioning a rejection, and anything else is a failure.
   */
  function Classify(err: ErrorInfo, name: string): (st: Status)
    ensures st == DuplicateStatus(name) <==> Mentions(err.reason, DuplicateReason)
    ensures st == CancelledStatus <==> !Mentions(err.reason, DuplicateReason) && Mentions(err.message, RejectedMessage)
    ensures st == FailedStatus <==> !Mentions(err.reason, DuplicateReason) && !Mentions(err.message, RejectedMessage)
  {
    if err.reason.Some? && Includes(err.reason.value, DuplicateReason) then DuplicateStatus(name)
    else if err.message.Some? && Includes(err.message.value, RejectedMessage) then CancelledStatus
    else FailedStatus
  }

  /** The Submit component's state. */
  class SubmitForm {
    var fileName: Option<string>
    var file: Option<FileRef>
    var status: Status
    var isLoading: bool
    /** Every value written to isLoading, in order: how the spinner came and went. */
    ghost var loadingLog: seq<bool>

    constructor ()
      ensures fileName == None && file == None && status == Cleared && !isLoading
      ensures loadingLog == []
    {
      fileName, file, status, isLoading := None, None, Cleared, false;
      loadingLog := [];
    }

    /** `handleFileChange`: the first file of the input, if there is one, becomes the selection. */
    method HandleFileChange(picked: Option<FileRef>)
      modifies this
      ensures picked.Some? ==> fileName == Some(picked.value.name) && file == picked
      ensures picked.None? ==> fileName == old(fileName) && file == old(file)
      ensures status == old(status) && isLoading == old(isLoading) && loadingLog == old(loadingLog)
    {
      if picked.Some? {
        fileName := Some(picked.value.name);
        file := picked;
      }
    }

    /** `handleDrop`: as a file change, but only while the hidden file input is mounted. */
    method HandleDrop(dropped: Option<FileRef>, inputMounted: bool)
      modifies this
      ensures dropped.Some? && inputMounted ==> fileName == Some(dropped.value.name) && file == dropped
      ensures dropped.None? || !inputMounted ==> fileName == old(fileName) && file == old(file)
      ensures status == old(status) && isLoading == old(isLoading) && loadingLog == old(loadingLog)
    {
      if dropped.Some? && inputMounted {
        fileName := Some(dropped.value.name);
        file := dropped;
      }
    }

    /** The Remove button: hides the name and the status, but keeps the file itself. */
    method Remove()
      modifies this
      ensures fileName == None && status == Cleared
      ensures file == old(file) && isLoading == old(isLoading) && loadingLog == old(loadingLog)
    {
      fileName := None;
      status := Cleared;
    }

    /**
     * Remove as the rest of the component implies it was meant: the file
     * goes with its name, so a later Submit reports that none is selected.
     */
    method ClearSelection()
      modifies this
      ensures fileName == None && file == None && status == Cleared
      ensures isLoading == old(isLoading) && loadingLog == old(loadingLog)
    {
      fileName := None;
      file := None;
      status := Cleared;
    }

    /**
     * `handleSubmit`, run to completion. `readError` is the error reading
     * the file's bytes throws, if it does; `hash` is Keccak-256;
     * `walletPresent` says whether `window.ethereum` exists; `write` is how
     * the wallet and ledger part ends. Returns the digest `submitIdeaHash`
     * was called with, if it was called at all.
     */
    method HandleSubmit(hash: Bytes -> Digest, readError: Option<ErrorInfo>, walletPresent: bool, write: WriteOutcome)
      returns (sent: Option<Digest>)
      modifies this
      ensures fileName == old(fileName) && file == old(file)
      ensures !isLoading && loadingLog == old(loadingLog) + [true, false]
      ensures old(file).None? ==> status == NoFileStatus && sent == None
      ensures old(file).Some? && readError.Some? ==>
                status == Classify(readError.value, old(file).value.name) && sent == None
      ensures old(file).Some? && readError.None? && !walletPresent ==> status == NoWalletStatus && sent == None
      ensures old(file).Some? && readError.None? && walletPresent ==>
                (sent.Some? <==> !write.SignerFailed?) &&
                status == if write.Confirmed? then SuccessStatus(old(file).value.name)
                          else Classify(write.err, old(file).value.name)
      ensures sent.Some? ==> old(file).Some? && sent == Some(hash(old(file).value.content))
      ensures status.kind == Some(Success) <==>
                old(file).Some? && readError.None? && walletPresent && write.Confirmed?
    {
      sent := None;
      isLoading := true;
      loadingLog := loadingLog + [true];
      if file.None? {
        status := NoFileStatus;
        isLoading := false;
        loadingLog := loadingLog + [false];
        return;
      }
      var f := file.value;
      var thrown: Option<ErrorInfo> := None;
      if readError.Some? {
        thrown := readError;
      } else {
        var digest := hash(f.content);
        if !walletPresent {
          status := NoWalletStatus;
          isLoading := false;
          loadingLog := loadingLog + [false];
          return;
        }
        if write.SignerFailed? {
          thrown := Some(write.err);
        } else {
          sent := Some(digest);
          if write.Confirmed? {
            status := SuccessStatus(f.name);
            isLoading := false;
            loadingLog := loadingLog + [false];
          } else {
            thrown := Some(write.err);
          }
        }
      }
      if thrown.Some? {
        status := Classify(thrown.value, f.name);
        isLoading := false;
        loadingLog := loadingLog + [false];
      }
    }
  }

  /**
   * Remove does not clear the file: pick a file, remove it, submit, and the
   * removed file is still the one hashed and timestamped. The success status
   * is set while no name is, so the panel keeps showing the drop zone; the
   * status first appears once the next file is picked, next to that file's
   * name but naming the removed one.
   */
  method SubmitAfterRemove(f: FileRef, hash: Bytes -> Digest) returns (sent: Option<Digest>, status: Status, name: Option<string>)
    ensures name == None
    ensures sent == Some(hash(f.content)) && status == SuccessStatus(f.name)
  {
    var form := new SubmitForm();
    form.HandleFileChange(Some(f));
    form.Remove();
    sent := form.HandleSubmit(hash, None, true, Confirmed);
    status, name := form.status, form.fileName;
  }

  /** With the corrected Remove, submitting after it reaches no ledger and asks for a file. */
  method SubmitAfterClearSelection(f: FileRef, hash: Bytes -> Digest, walletPresent: bool, write: WriteOutcome)
    returns (sent: Option<Digest>, shown: Status)
    ensures sent == None && shown == NoFileStatus
  {
    var form := new SubmitForm();
    form.HandleFileChange(Some(f));
    form.ClearSelection();
    sent := form.HandleSubmit(hash, None, walletPresent, write);
    shown := form.status;
  }

  /** With no file ever picked, Submit reports it and never reaches the ledger. */
  method SubmitWithoutFile(hash: Bytes -> Digest, walletPresent: bool, write: WriteOutcome) returns (sent: Option<Digest>, shown: Status, loading: bool)
    ensures sent == None && shown == NoFileStatus && !loading
  {
    var form := new SubmitForm();
    sent := form.HandleSubmit(hash, None, walletPresent, write);
    shown, loading := form.status, form.isLoading;
  }
}
