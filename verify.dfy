/**
 * The verification panel: the user picks or drops one file, Verify hashes
 * it and looks the digest up on the ledger, and when the digest is found
 * a certificate can be downloaded.
 */
module Verify {
  import opened Common
  import opened Blockchain

  /** `verificationStatus`: "pending", "success" or "error" (None is null). */
  datatype Phase = Pending | Succeeded | Failed

  /**
   * The text of a generated certificate: the name it is saved under, its
   * centred title and its left-aligned lines, top to bottom.
   */
  datatype Certificate = Certificate(saveAs: string, title: string, lines: seq<string>)

  /** What the Download Certificate button does: save a document, or alert the user. */
  datatype Download = Saved(certificate: Certificate) | Alerted(text: string)

  const ErrorMessage := Cross + " Error verifying file"
  const NoFileAlert := "Please select a file first."
  const CertificateAlert := Cross + " Could not generate certificate."
  const CertificateTitle := "Certificate of Idea - Timestamp"
  const HashLabel := "SHA3 Hash: "

  /** A lookup result counts as found when it has a positive timestamp and a submitter other than the zero address. */
  predicate Found(r: Record)
  {
    r.timestamp > 0 && r.submitter != ZeroAddress
  }

  /** The ledger's seconds as the milliseconds a JavaScript Date is built from. */
  function Millis(seconds: nat): (ms: nat)
    ensures ms / 1000 == seconds && ms % 1000 == 0
  {
    seconds * 1000
  }

  function FoundMessage(name: string, when: string): string
  {
    Tick + "  <strong>" + name + "</strong> exists on the blockchain<br>Submitted on: " + when
  }

  function NotFoundMessage(name: string): string
  {
    Cross + "  <strong>" + name + "</strong> not found on the blockchain"
  }

  /**
   * The certificate for `name`: its digest, the submitter and the time as
   * the ledger gave them. `stamp` is the time already rendered in the
   * viewer's time zone and `zone` that zone's name.
   */
  function CertificateFor(name: string, digest: Digest, submitter: string, stamp: string, zone: string): Certificate
  {
    Certificate(
      "Certificate of " + name + ".pdf",
      CertificateTitle,
      [ "File Name: " + name,
        HashLabel + ToHex(digest),
        "Submitted by: " + submitter,
        "Timestamp: " + stamp,
        "Time zone: " + zone ])
  }

  /** The file a certificate was saved for can be read back from the name it was saved under. */
  lemma CertificateNamesFile(name: string, digest: Digest, submitter: string, stamp: string, zone: string)
    ensures var saveAs := CertificateFor(name, digest, submitter, stamp, zone).saveAs;
            |saveAs| == |name| + 19 && saveAs[15..|saveAs| - 4] == name
  {
  }

  /** The hash line determines the digest: reading back its hexadecimal text gives the digest that was looked up. */
  lemma CertificateNamesDigest(name: string, digest: Digest, submitter: string, stamp: string, zone: string)
    ensures var line := CertificateFor(name, digest, submitter, stamp, zone).lines[1];
            |line| > |HashLabel| && line[..|HashLabel|] == HashLabel && ParseHex(line[|HashLabel|..]) == Some(digest)
  {
    var line := CertificateFor(name, digest, submitter, stamp, zone).lines[1];
    assert line[|HashLabel|..] == ToHex(digest);
    HexRoundTrip(digest);
  }

  /** Certificates for different digests differ in their hash line. */
  lemma CertificatesTellDigestsApart(name: string, d1: Digest, d2: Digest, submitter: string, stamp: string, zone: string)
    requires d1 != d2
    ensures CertificateFor(name, d1, submitter, stamp, zone).lines[1] != CertificateFor(name, d2, submitter, stamp, zone).lines[1]
  {
    CertificateNamesDigest(name, d1, submitter, stamp, zone);
    CertificateNamesDigest(name, d2, submitter, stamp, zone);
  }

  /** A digest the ledger has no record for is never found. */
  lemma UnknownDigestNotFound(records: map<Digest, Record>, d: Digest)
    requires d !in records
    ensures !Found(GetIdeaByHash(records, d))
  {
  }

  /** The Verify component's state. */
  class VerifyForm {
    var fileName: Option<string>
    var selectedFile: Option<FileRef>
    var message: Option<string>
    var showDownload: bool
    var phase: Option<Phase>

    /**
     * Between handlers: the name shown is the selected file's; with no
     * selection nothing else is set; a pending file has no message yet;
     * and the download button shows exactly after a successful lookup.
     */
    ghost predicate Valid()
      reads this
    {
      (selectedFile.None? ==> fileName.None? && message.None? && !showDownload && phase.None?) &&
      (selectedFile.Some? ==> fileName == Some(selectedFile.value.name) && phase.Some?) &&
      (phase == Some(Pending) ==> message.None?) &&
      (showDownload <==> phase == Some(Succeeded))
    }

    constructor ()
      ensures Valid()
      ensures fileName == None && selectedFile == None && message == None && !showDownload && phase == None
    {
      fileName, selectedFile, message, showDownload, phase := None, None, None, false, None;
    }

    /**
     * `handleFileChange`: the first file of the input, if there is one,
     * becomes the selection and is pending. The input is rendered only
     * while no file name is set, so that is when it can fire.
     */
    method HandleFileChange(picked: Option<FileRef>)
      requires Valid() && fileName.None?
      modifies this
      ensures Valid()
      ensures picked.Some? ==> fileName == Some(picked.value.name) && selectedFile == picked && phase == Some(Pending)
      ensures picked.None? ==> fileName == old(fileName) && selectedFile == old(selectedFile) && phase == old(phase)
      ensures message == old(message) && showDownload == old(showDownload)
    {
      if picked.Some? {
        fileName := Some(picked.value.name);
        selectedFile := picked;
        phase := Some(Pending);
      }
    }

    /** `handleDrop`: the same as a file change; the drop zone too exists only while no file name is set. */
    method HandleDrop(dropped: Option<FileRef>)
      requires Valid() && fileName.None?
      modifies this
      ensures Valid()
      ensures dropped.Some? ==> fileName == Some(dropped.value.name) && selectedFile == dropped && phase == Some(Pending)
      ensures dropped.None? ==> fileName == old(fileName) && selectedFile == old(selectedFile) && phase == old(phase)
      ensures message == old(message) && showDownload == old(showDownload)
    {
      if dropped.Some? {
        fileName := Some(dropped.value.name);
        selectedFile := dropped;
        phase := Some(Pending);
      }
    }

    /** The Remove button: every field back to its initial value. */
    method Remove()
      modifies this
      ensures Valid()
      ensures fileName == None && selectedFile == None && message == None && !showDownload && phase == None
    {
      fileName := None;
      selectedFile := None;
      message := None;
      showDownload := false;
      phase := None;
    }

    /**
     * `verifyFileOnBlockchain(file)`, run to completion. `readOk` says
     * whether reading the bytes succeeds; `chain` is the ledger as the
     * lookup sees it; `localTime` renders milliseconds since the epoch in
     * the viewer's locale. Returns the digest looked up, if any.
     */
    method VerifyFileOnBlockchain(file: FileRef, hash: Bytes -> Digest, readOk: bool, chain: Chain, localTime: nat -> string)
      returns (looked: Option<Digest>)
      modifies this`message, this`showDownload, this`phase
      ensures showDownload <==> phase == Some(Succeeded)
      ensures looked.Some? <==> readOk && !chain.NoProvider?
      ensures looked.Some? ==> looked == Some(hash(file.content))
      ensures !readOk || !chain.Reachable? ==>
                message == Some(ErrorMessage) && !showDownload && phase == Some(Failed)
      ensures readOk && chain.Reachable? ==>
                var r := GetIdeaByHash(chain.records, hash(file.content));
                if Found(r) then
                  message == Some(FoundMessage(file.name, localTime(Millis(r.timestamp)))) && phase == Some(Succeeded)
                else
                  message == Some(NotFoundMessage(file.name)) && phase == Some(Failed)
    {
      looked := None;
      if !readOk {
        message, showDownload, phase := Some(ErrorMessage), false, Some(Failed);
        return;
      }
      var digest := hash(file.content);
      if chain.NoProvider? {
        message, showDownload, phase := Some(ErrorMessage), false, Some(Failed);
        return;
      }
      looked := Some(digest);
      if chain.CallFails? {
        message, showDownload, phase := Some(ErrorMessage), false, Some(Failed);
        return;
      }
      var r := GetIdeaByHash(chain.records, digest);
      if Found(r) {
        message := Some(FoundMessage(file.name, localTime(Millis(r.timestamp))));
        showDownload := true;
        phase := Some(Succeeded);
      } else {
        message := Some(NotFoundMessage(file.name));
        showDownload := false;
        phase := Some(Failed);
      }
    }

    /**
     * The Verify button: with no selection it only alerts; otherwise it
     * verifies the selected file. Returns the alert text, if one was shown,
     * and the digest looked up, if any.
     */
    method ClickVerify(hash: Bytes -> Digest, readOk: bool, chain: Chain, localTime: nat -> string)
      returns (alert: Option<string>, looked: Option<Digest>)
      requires Valid()
      modifies this
      ensures Valid()
      ensures fileName == old(fileName) && selectedFile == old(selectedFile)
      ensures old(selectedFile).None? ==>
                alert == Some(NoFileAlert) && looked == None &&
                message == old(message) && showDownload == old(showDownload) && phase == old(phase)
      ensures old(selectedFile).Some? ==> alert == None && (looked.Some? <==> readOk && !chain.NoProvider?)
      ensures looked.Some? ==> old(selectedFile).Some? && looked == Some(hash(old(selectedFile).value.content))
      ensures old(selectedFile).Some? && (!readOk || !chain.Reachable?) ==>
                message == Some(ErrorMessage) && !showDownload && phase == Some(Failed)
      ensures old(selectedFile).Some? && readOk && chain.Reachable? ==>
                var f := old(selectedFile).value;
                var r := GetIdeaByHash(chain.records, hash(f.content));
                if Found(r) then
                  message == Some(FoundMessage(f.name, localTime(Millis(r.timestamp)))) && showDownload && phase == Some(Succeeded)
                else
                  message == Some(NotFoundMessage(f.name)) && !showDownload && phase == Some(Failed)
    {
      if selectedFile.None? {
        alert, looked := Some(NoFileAlert), None;
        return;
      }
      alert := None;
      looked := VerifyFileOnBlockchain(selectedFile.value, hash, readOk, chain, localTime);
    }

    /**
     * `downloadCertificate`: with no selection it does nothing (None);
     * otherwise it hashes the file again and reads the ledger again, and
     * either saves the certificate or alerts. `enUsTime` renders
     * milliseconds in the viewer's time zone, `zone` names that zone.
     */
    method DownloadCertificate(hash: Bytes -> Digest, readOk: bool, chain: Chain, enUsTime: nat -> string, zone: string)
      returns (outcome: Option<Download>)
      ensures selectedFile.None? ==> outcome == None
      ensures selectedFile.Some? && (!readOk || !chain.Reachable?) ==> outcome == Some(Alerted(CertificateAlert))
      ensures selectedFile.Some? && readOk && chain.Reachable? ==>
                var f := selectedFile.value;
                var d := hash(f.content);
                var r := GetIdeaByHash(chain.records, d);
                outcome == Some(Saved(CertificateFor(f.name, d, r.submitter, enUsTime(Millis(r.timestamp)), zone)))
    {
      if selectedFile.None? {
        return None;
      }
      var f := selectedFile.value;
      if !readOk || !chain.Reachable? {
        return Some(Alerted(CertificateAlert));
      }
      var d := hash(f.content);
      var r := GetIdeaByHash(chain.records, d);
      var stamp := enUsTime(Millis(r.timestamp));
      outcome := Some(Saved(CertificateFor(f.name, d, r.submitter, stamp, zone)));
    }
  }

  /**
   * A file whose digest the ledger holds with a real submitter and time
   * verifies as found, and the certificate then downloaded names that
   * file, that digest, that submitter and that time.
   */
  method VerifyThenDownload(f: FileRef, hash: Bytes -> Digest, records: map<Digest, Record>,
                            localTime: nat -> string, enUsTime: nat -> string, zone: string)
    returns (shown: Option<string>, download: bool, outcome: Option<Download>)
    requires hash(f.content) in records && Found(records[hash(f.content)])
    ensures shown == Some(FoundMessage(f.name, localTime(Millis(records[hash(f.content)].timestamp))))
    ensures download
    ensures outcome.Some? && outcome.value.Saved? && |outcome.value.certificate.lines| == 5
    ensures outcome.value.certificate.saveAs == "Certificate of " + f.name + ".pdf"
    ensures outcome.value.certificate.lines[0] == "File Name: " + f.name
    ensures outcome.value.certificate.lines[1] == HashLabel + ToHex(hash(f.content))
    ensures outcome.value.certificate.lines[2] == "Submitted by: " + records[hash(f.content)].submitter
    ensures outcome.value.certificate.lines[3] == "Timestamp: " + enUsTime(Millis(records[hash(f.content)].timestamp))
    ensures outcome.value.certificate.lines[4] == "Time zone: " + zone
  {
    var form := new VerifyForm();
    form.HandleFileChange(Some(f));
    var alert, looked := form.ClickVerify(hash, true, Reachable(records), localTime);
    shown, download := form.message, form.showDownload;
    outcome := form.DownloadCertificate(hash, true, Reachable(records), enUsTime, zone);
  }

  /** A file whose digest was never recorded verifies as not found, and no download is offered. */
  method VerifyUnknown(f: FileRef, hash: Bytes -> Digest, records: map<Digest, Record>, localTime: nat -> string)
    returns (shown: Option<string>, download: bool, phase: Option<Phase>)
    requires hash(f.content) !in records
    ensures shown == Some(NotFoundMessage(f.name)) && !download && phase == Some(Failed)
  {
    var form := new VerifyForm();
    form.HandleDrop(Some(f));
    var alert, looked := form.ClickVerify(hash, true, Reachable(records), localTime);
    shown, download, phase := form.message, form.showDownload, form.phase;
  }
}
