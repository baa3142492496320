# TimeProof file timestamping: a Dafny model

TimeProof is a single-page site. The user picks a file in the browser, and the
page hashes its bytes with Keccak-256. It can then ask the user's wallet to
record the digest on a timestamping contract (the Submit panel). It can also
look a file's digest up on that contract and, when the digest is there, save a
PDF certificate (the Verify panel). The helper module also exports
`normalizeIdea`, a text normaliser that neither panel calls.

This project models those three pieces:

- `common.dfy` (module `Common`): bytes, the 32-byte digest, a selected file,
  and the `0x`-prefixed lower-case hexadecimal text of a digest. A parser reads
  that text back, and it is proved to invert it.
- `blockchain.dfy` (module `Blockchain`): the record that
  `getIdeaByHash` returns (the zero address and time 0 for an unknown digest),
  the ledger as the read path sees it, and `normalizeIdea` as `NormalizeIdea`.
  The normaliser is written as trim (`TrimStart`, `TrimEnd`, `Trim`) followed
  by `Collapse`, which turns each whitespace run into one space. It uses the ECMAScript whitespace set, which
  `trim` and `\s` share.
- `submit.dfy` (module `Submit`): the Submit component as class `SubmitForm`.
  Its fields are `fileName`, `file`, `status` and `isLoading`. A ghost log
  records every value written to `isLoading`. The methods are the file-change,
  drop, Remove and `handleSubmit` handlers. The error classification is a pure
  function over a substring search.
- `verify.dfy` (module `Verify`): the Verify component as class `VerifyForm`.
  Its fields are `fileName`, `selectedFile`, the message, the download flag
  and the status. It also holds the "found" predicate `Found` (the test at
  src/components/Verify.tsx:49), the messages, and `CertificateFor`, the
  certificate's file name and text lines (src/components/Verify.tsx:98-108).

External things are inputs:

- Keccak-256 is a parameter `hash: Bytes -> Digest`.
- Whether reading the file's bytes throws is a parameter.
- Whether `window.ethereum` exists is a parameter.
- How the wallet write ends is a parameter: `getSigner` threw, the
  `submitIdeaHash` call threw, the confirmation wait threw, or all of them
  returned. Each error carries its `reason` and `message`.
- The ledger is a parameter, as the read path sees it. It is reachable with a
  map from digest to record. Or `getIdeaByHash` throws. Or there is no wallet
  object, so the provider cannot be built and no call is made.
- The locale rendering of a time is a function of the milliseconds.
- The time-zone name is a string.

Each handler runs to completion.

Facts about the code that the model keeps:

- The Submit button is never disabled while a submission runs
  (src/components/Submit.tsx:207-219). `HandleSubmit` can therefore be called
  again at any time.
- Picking or dropping a file leaves the message and the download flag as they
  were (src/components/Verify.tsx:14-31). A file can be picked only while no
  name is shown, which means after Remove or at the start. So
  `VerifyForm.Valid()` still holds after every handler, and the download button
  shows exactly when the status is "success".
- `downloadCertificate` does not check that the digest was found. It hashes the
  file again, reads the ledger again, and prints whatever record comes back.

## Model

| member | source | states |
|---|---|---|
| Common.HexRoundTrip | src/components/Verify.tsx:76-80 | The digest text handed to the ledger and printed on the certificate reads back to the digest itself |
| Common.HexInjective | src/components/Verify.tsx:99 | Two digests have the same text exactly when they are equal |
| Blockchain.TrimStart | src/utils/blockchain.ts:11 | Leading trim gives the longest suffix not starting with whitespace, and it drops only whitespace |
| Blockchain.TrimEnd | src/utils/blockchain.ts:11 | Trailing trim gives the longest prefix not ending with whitespace, and it drops only whitespace |
| Blockchain.TrimKeepsVisible | src/utils/blockchain.ts:11 | `trim` keeps every non-whitespace character, in order |
| Blockchain.NormalizeIsTrimmed | src/utils/blockchain.ts:11 | The normalised text neither starts nor ends with whitespace |
| Blockchain.NormalizeIsSingleSpaced | src/utils/blockchain.ts:11 | Every whitespace character left is a plain space, and no two whitespace characters are adjacent |
| Blockchain.NormalizeKeepsVisible | src/utils/blockchain.ts:11 | The non-whitespace characters of the result are those of the input, same characters in the same order |
| Blockchain.NormalizeIdempotent | src/utils/blockchain.ts:10-11 | Normalising twice gives the same text as normalising once |
| Blockchain.NormalizeBlank | src/utils/blockchain.ts:11 | The result is empty if and only if the input is empty or all whitespace |
| Blockchain.NormalizeShorter | src/utils/blockchain.ts:11 | The result is never longer than the input |
| Blockchain.NormalizeKeepsWord | src/utils/blockchain.ts:11 | Text with no whitespace comes back unchanged |
| Blockchain.NormalizeIgnoresOuterSpace | src/utils/blockchain.ts:11 | Whitespace added at either end of the text leaves its normal form unchanged |
| Blockchain.NormalizeSeparates | src/utils/blockchain.ts:11 | A whitespace run between two non-whitespace characters becomes exactly one space, and the text on either side normalises on its own |
| Submit.Includes | src/components/Submit.tsx:88-95 | The substring test is true exactly when the pattern occurs at some index |
| Submit.Classify | src/components/Submit.tsx:88-99 | A reason mentioning "Hash already submitted" gives the duplicate status. Otherwise a message mentioning "user rejected" gives the cancelled status. Anything else gives the failed status. Each holds in both directions |
| Submit.SubmitForm.constructor | src/components/Submit.tsx:8-16 | Starts with no name, no file, the empty status and no spinner |
| Submit.SubmitForm.HandleFileChange | src/components/Submit.tsx:18-24 | A picked file sets both the name and the file. The status and the loading flag are untouched. Without a file, nothing changes |
| Submit.SubmitForm.HandleDrop | src/components/Submit.tsx:26-36 | Same as a file change, but only when the file input is mounted |
| Submit.SubmitForm.Remove | src/components/Submit.tsx:197-200 | Clears the name and the status but leaves `file` as it was |
| Submit.SubmitForm.ClearSelection | src/components/Submit.tsx:197-200 | Corrected Remove: clears the name, the file and the status |
| Submit.SubmitForm.HandleSubmit | src/components/Submit.tsx:43-102 | No file: "select a file" status, no ledger call. Read failure: classified. No wallet: MetaMask status, no ledger call. `getSigner` failure: classified, and `submitIdeaHash` is never called. Otherwise `submitIdeaHash` is called with the digest of the file's bytes, and the result is success on confirmation or the classified error of the call or the wait. Success happens iff every step succeeded. `isLoading` is written true, then false, exactly once each, and ends false |
| Submit.SubmitAfterRemove | src/components/Submit.tsx:43-82 | After pick, Remove and a confirmed Submit, the removed file's digest is still sent and the status becomes the success record for that file, while no file name is set |
| Submit.SubmitAfterClearSelection | src/components/Submit.tsx:44-55 | With the corrected Remove, a later Submit sends nothing and asks for a file |
| Submit.SubmitWithoutFile | src/components/Submit.tsx:44-55 | With no file, Submit sends nothing, shows the "select a file" status and ends with the spinner off |
| Verify.Millis | src/components/Verify.tsx:102 | Ledger seconds become milliseconds; dividing by 1000 gives the seconds back with no remainder |
| Verify.UnknownDigestNotFound | src/components/Verify.tsx:47-49 | A digest with no record reads as the zero address and time 0, which is never found |
| Verify.CertificateNamesFile | src/components/Verify.tsx:108 | The certificate is saved as "Certificate of " + name + ".pdf", and the name can be read back from it |
| Verify.CertificateNamesDigest | src/components/Verify.tsx:99 | The hash line is "SHA3 Hash: " followed by text that reads back to the digest looked up |
| Verify.CertificatesTellDigestsApart | src/components/Verify.tsx:99 | Different digests give different hash lines |
| Verify.VerifyForm.constructor | src/components/Verify.tsx:8-12 | All five fields start null/false, and the panel invariant holds |
| Verify.VerifyForm.HandleFileChange | src/components/Verify.tsx:14-21 | A picked file sets the name and the selection, with status "pending". The message and the download flag are untouched. The invariant is kept |
| Verify.VerifyForm.HandleDrop | src/components/Verify.tsx:23-31 | Same as a file change, with no mounted-input check |
| Verify.VerifyForm.Remove | src/components/Verify.tsx:192-198 | Resets all five fields to null/false |
| Verify.VerifyForm.VerifyFileOnBlockchain | src/components/Verify.tsx:38-68 | `getIdeaByHash` is called, with the digest of the file's bytes, exactly when the read succeeds and a wallet object exists. Read or ledger failure: "Error verifying file", no download, "error". Found record: the found message with the time in milliseconds, download shown, "success". Otherwise: the not-found message, no download, "error". The download flag is true iff the status is "success" |
| Verify.VerifyForm.ClickVerify | src/components/Verify.tsx:215-221 | No selection: an alert, no lookup and no state change. Otherwise no alert, and the selected file's digest is looked up exactly when its read succeeds and a wallet object exists. The outcome is as for a verification. The invariant is kept |
| Verify.VerifyForm.DownloadCertificate | src/components/Verify.tsx:70-115 | No selection: returns at once. Read or ledger failure: the "Could not generate certificate" alert. Otherwise, once the PDF library and the logo have loaded, the file is saved as "Certificate of name.pdf". Its lines, in order, are the file name, the hex digest used for the lookup, the submitter, the time rendered from milliseconds, and the zone |
| Verify.VerifyThenDownload | src/components/Verify.tsx:47-108 | A file whose digest is recorded with a real submitter and time verifies as found with a download offered. Its certificate is saved under the file's name and carries the file name, that digest, that submitter, the recorded time and the zone |
| Verify.VerifyUnknown | src/components/Verify.tsx:47-60 | A file whose digest was never recorded verifies as not found, with no download and status "error" |

## Findings

| source | as written | input that shows it | evidently intended | confidence | as-written member | corrected member |
|---|---|---|---|---|---|---|
| src/components/Submit.tsx:197-200 | Remove clears `fileName` and the status but not `file` | Pick a file, click Remove, click Submit with a wallet that confirms. The panel shows no file, yet the removed file is hashed and sent. The success status is set but stays hidden behind the drop zone (src/components/Submit.tsx:111-143). It appears when the next file is picked, and then it names the removed file | Remove discards the file too, as Verify's Remove does (src/components/Verify.tsx:194), so Submit answers "Please select a file first" | medium; not executed | Submit.SubmitAfterRemove | Submit.SubmitAfterClearSelection |

## Left out

- Keccak-256 itself is a parameter. The certificate calls it "SHA3", but it is Ethereum's Keccak-256, not FIPS 202 SHA3-256.
- The wallet and network plumbing is left out: `BrowserProvider`, `getSigner`, `Contract` and `tx.wait`. Only which of them throws, and with what error, is an input.
- The contract's own rule that rejects a digest already recorded lives in the contract, not in this repository. The model only classifies the error it raises.
- `submitIdea` and `getIdea`, the text-based contract functions, are in the contract interface but never called. They are not modelled.
- `normalizeIdea` runs on Unicode scalar values. JavaScript strings are UTF-16 code units. Every whitespace character lies in the Basic Multilingual Plane, so the two agree on which characters are whitespace.
- Verify.Millis: uses exact integer arithmetic. The source converts the uint256 to a floating-point `Number` first, which loses precision above 2^53 seconds.
- `toLocaleString` and the `Intl` time-zone lookup are locale-dependent, so they are function and string inputs.
- Verify.VerifyForm.DownloadCertificate: the `Saved` outcome assumes that the `import('jspdf')` promise resolves and that the logo image loads. If the import rejects, nothing catches it (src/components/Verify.tsx:82). If the image fails, only `onload` is set (src/components/Verify.tsx:89). Either way nothing is saved and no alert is shown, and the model does not cover those runs.
- The jsPDF layout is left out: the logo image and its loading, font sizes, coordinates and `doc.save`. The certificate is modelled as its saved name, title and text lines.
- Async interleaving is left out. Each handler runs to completion, and a handler that overlaps another or finishes after Remove is not modelled. The ghost `loadingLog` records the spinner's on and off writes instead of the time between them.
- The `alert` and `console` calls are left out. `ClickVerify` returns the alert text instead of showing it.
- Rendering is left out: the JSX, styles and colours, `dangerouslySetInnerHTML`, the spinners, the header scroll listener, the cursor halo, and the static landing and how-to content.
