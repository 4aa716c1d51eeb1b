# Verification of TinyONE's image and certificate handling

TinyONE is a small embedded DHCP/SNTP server. Its boot loader copies a checksummed image from a
memory card to RAM and starts it; its firmware receives web and firmware images and certificate
chains over the network, keeps them on the card, and provisions itself with a key and certificate
on first boot. This project models that handling in Dafny and proves what it keeps.

| file | models |
|---|---|
| `Bytes.dfy` | bytes, 32-bit words, little-endian words in structures |
| `AdlerSpec.dfy`, `AdlerFast.dfy` | Adler-32 as section 2.2 of RFC 1950 defines it; the fast 32-bit code, with and without division |
| `Xbin.dfy`, `Loader.dfy`, `FwInstall.dfy` | the image header and its check; the boot loader's copy; installing an upload, and its way to RAM |
| `CString.dfy` | C strings in buffers; the in-place text area conversion |
| `Der.dfy`, `SanWriter.dfy`, `SanParser.dfy` | the backwards DER writers; the Subject Alternative Name extension; the reader that prints it |
| `Chain.dfy`, `UpdateTask.dfy` | cutting and checking an uploaded chain; the interleaving of requests and power cuts with the task that stores it |
| `CertStore.dfy`, `Provisioning.dfy` | loading and writing key and chain; first-boot provisioning over boots and power cuts |
| `Transfer.dfy`, `ImageStore.dfy`, `ImageTasks.dfy` | the chunked transfers; who owns the web image's heap buffer; the same with several upgrades interleaved at their yields |
| `Uploads.dfy` | upload requests interleaved at their waits and yields, over the buffer they share |
| `FwCache.dfy` | the cache of firmware names and versions |

Conventions:

- `byte` and `u32` are subsets of the integers. A value assigned to a `u32` variable must be proved
  to fit, so a verified method has no 32-bit overflow; shifts and masks are written as division,
  remainder and multiplication. `unsigned long` is 32 bits wide on this target.
- Code that edits buffers or static variables is a method over arrays or a class, proved against
  functions; what the code promises is proved about those functions.
- Protocols are step functions over events, and their theorems hold for every run. The operations
  they are made of are methods whose contracts name the same steps where the code has such an
  operation.
- Tasks are switched where the cooperative scheduler (`source/common/library/tcts/src/tcts.c`) can
  switch them: in delays, yields and waits. What lies between two such calls is one step. Up to four
  web client tasks serve requests (`source/common/library/ipweb/src/ipweb.c`); a request that has no
  such call between reading its arguments and its effect is one step for that reason.
- What comes from outside is a parameter: which reads, writes, opens and allocations fail, what the
  certificate parser, the decoder and the image mounter answer.

Where a property that one would expect does not hold of the code, the code is modelled as it is and
the exact condition is proved:

- `adler32` meets the definition for every start value except lengths 0 and 1 from halves that are
  not reduced (`AdlerFast.Agrees`).
- The boot loader's error exit for a failing read in the copy loop returns 0 but leaves the entry
  point set, and the caller starts whatever is there.
- `GetANStr` reads the extension back exactly if its contents are at most 125 bytes: beyond that the
  encoded lengths take more than the one byte it expects.
- `chain.crt` is emptied by an update that is requested before any chain was kept, and can be by a
  power cut inside its write; it is whole over a run exactly if neither happens
  (`UpdateTask.WholeIff`).
- An uploaded chain is stored before it is decoded, so a request can fail and still replace it.
- Provisioning writes the chain even when the key file could not be opened, and starts again beside
  a valid key and chain if `cert_Check` cannot open them; key and chain match exactly over the runs in
  which neither leads to a wrong write (`Provisioning.ProvisioningSafeIff`,
  `Provisioning.CheckedFilesMatchIff`).
- Mounting a card while an image is still held loses the block; alternating card events exclude it.
- `ReadBuffer` yields between reads, so a second upgrade, or a pulled card, takes the block of an
  upgrade in flight; all is well exactly if neither happens (`ImageTasks.AlternatingGoodIff`).
- Upload requests share one buffer, which the first to end releases, and yield between writes; every
  upload keeps its bytes exactly if no other request overwrites bytes it still needs, opens its file
  anew, or ends before it (`Uploads.GoodIff`).
- `ReadBuffer` takes a failed read for a number of bytes, and then does not end
  (`Transfer.LoopEndsIff`).
- xfile's name pointer points into a freed block after some mounts (`ImageStore.AlwaysNameLiveIff`).
- `xbin_Check` does not look at the upload's size: an accepted upload is stored as a valid image
  exactly if it holds all the data its header announces (`FwInstall.StoredIsValidIff`).
- `xbin_Copy` does not look at how much its writes put into `firmware.bin`, and its read-back cannot
  notice, because the rest is still in memory. It also returns 0 if the target could not be opened but
  an old one passes. When it returns 0, the image is installed exactly if it was written in full, or
  was there already (`FwInstall.OkInstalledIff`); it returns -1 for an installed image exactly if that
  cannot be opened for reading (`FwInstall.FailedInstalledIff`).
- `fs_UpgradeWeb` returns 0 even if the image could not be mounted, where its header promises
  "0 = OK".
- The name and version caches are set from the upload's buffer, before its file is opened, and a name
  query that fails to open a file caches "empty"; `FwCache.AnswersAreFreshIff` has the exact condition.

## Model

| member | source | states |
|---|---|---|
| AdlerSpec.KnownAnswers | bootloader/library/adler32/adler32.c:165-230 | the checksums of nothing, of "abc", and of one byte behind the largest reduced halves, as numbers |
| AdlerSpec.DeferredModulo | bootloader/library/adler32/adler32.c:201-226 | reducing both sums once at the end gives the halves that reducing at every byte gives (section 2.2 of RFC 1950), from any congruent start |
| AdlerSpec.Streaming | bootloader/library/adler32/adler32.c:165-230 | checksumming x and then y from x's result is checksumming x + y, for every start value and every cut |
| AdlerSpec.DeferClosedForm | bootloader/library/adler32/adler32.c:102-106 | the unreduced sums are a + sum d_i and b + n*a + sum (n-i)*d_i |
| AdlerSpec.ClosedForm | bootloader/library/adler32/adler32.c:165-230 | the closed form of the checksum's halves modulo 65521 for all nonempty data |
| AdlerSpec.DeferBounded | bootloader/library/adler32/adler32.c:98-100 | the largest values the unreduced sums can reach after n bytes |
| AdlerSpec.BlockFits | bootloader/library/adler32/adler32.c:98-100 | up to NMAX bytes of any content stay in 32 bits, even from halves that are not reduced |
| AdlerSpec.NmaxIsExact | bootloader/library/adler32/adler32.c:98-100 | n bytes never overflow from reduced halves, whatever their content, if and only if n <= 5552 |
| AdlerSpec.BaseIsPrime | bootloader/library/adler32/adler32.c:98 | 65521 has no divisor between 2 and itself |
| AdlerSpec.NoZeroDivisors | bootloader/library/adler32/adler32.c:98 | 65521 divides no product of two positive numbers below it |
| AdlerSpec.CollisionIff | bootloader/library/adler32/adler32.c:165-230 | two messages of equal length have equal checksums if and only if their sums and weighted sums differ by multiples of 65521 |
| AdlerSpec.OneByteDetected | bootloader/library/adler32/adler32.c:165-230 | changing one byte always changes the checksum |
| AdlerSpec.TwoBytesDetectedIff | bootloader/library/adler32/adler32.c:165-230 | changing two bytes goes unnoticed if and only if the changes cancel and the bytes are a multiple of 65521 apart |
| AdlerSpec.NearbyPairDetected | bootloader/library/adler32/adler32.c:165-230 | changing one or two bytes less than 65521 apart always changes the checksum |
| AdlerFast.Chop | bootloader/library/adler32/adler32.c:118-123 | replacing 65536 by 15 keeps the value modulo 65521; the result in terms of the two halves |
| AdlerFast.Mod28 | bootloader/library/adler32/adler32.c:124-128 | the division-free reduction is % 65521 if and only if the chopped value is below 2*65521, which is so for all values below 2^28 |
| AdlerFast.ModNoDivide | bootloader/library/adler32/adler32.c:129-133 | equals % 65521 for every 32-bit value |
| AdlerFast.Mod63 | bootloader/library/adler32/adler32.c:134-146 | equals % 65521 for every value below 2^63 |
| AdlerFast.Do1 | bootloader/library/adler32/adler32.c:102 | one byte into both sums, without overflow |
| AdlerFast.Do16 | bootloader/library/adler32/adler32.c:102-106 | the unrolled block adds its 16 bytes in order (Do2, Do4 and Do8 likewise) |
| AdlerFast.AddGroups | bootloader/library/adler32/adler32.c:204-208 | the loop over 16-byte groups adds exactly their bytes |
| AdlerFast.AddBytes | bootloader/library/adler32/adler32.c:220-223 | the byte loop adds exactly its bytes |
| AdlerFast.Block | bootloader/library/adler32/adler32.c:203-210 | one NMAX block: both sums of its bytes, reduced |
| AdlerFast.Blocks | bootloader/library/adler32/adler32.c:201-211 | all whole NMAX blocks: less than NMAX bytes remain and the sums of the others are reduced |
| AdlerFast.Tail | bootloader/library/adler32/adler32.c:213-226 | the remaining bytes added and the sums reduced |
| AdlerFast.Long | bootloader/library/adler32/adler32.c:201-226 | 16 bytes and more: both sums of all bytes modulo 65521 |
| AdlerFast.Short | bootloader/library/adler32/adler32.c:189-199 | fewer than 16 bytes: single subtraction and MOD28 suffice, from any 16-bit halves |
| AdlerFast.Single | bootloader/library/adler32/adler32.c:174-183 | one byte: the first sum is reduced, the second is congruent, and reduced if and only if it was below 2*65521 |
| AdlerFast.Adler32 | bootloader/library/adler32/adler32.c:165-230 | for every start value, buffer and length the result is the RFC 1950 checksum if and only if Agrees holds (always, except for lengths 0 and 1 from unreduced halves); halves are always congruent; no 32-bit overflow on any path; NULL gives 1 |
| AdlerFast.ReducedAgrees | bootloader/library/adler32/adler32.c:170-183 | reduced halves always meet that condition |
| AdlerFast.UnreducedStartFails | bootloader/library/adler32/adler32.c:170-199 | two concrete start values with unreduced halves for which the two shortest paths do not give the definition's result |
| AdlerFast.PiecesAgree | bootloader/library/adler32/adler32.c:165-230 | from reduced halves, every piece of a checksum taken in two pieces meets the condition and the result is the whole's |
| Xbin.Checksum | source/common/src/xbin.c:105 | the checksum of a stretch of memory from the start value 1 |
| Xbin.HeaderOkIff | source/common/src/xbin.c:100-106 | a header is good if and only if its bytes spell twice "xbin" and header version 3 of size 256, and its last four are the checksum of the first 252 from 1 |
| Xbin.DataOkIff | source/common/src/xbin.c:108-117 | data is good if and only if it has the length at offset 16 and the checksum at offset 28 |
| Xbin.CheckHeader | source/common/src/xbin.c:100-106 | true if and only if both magics, the version and the header checksum are right |
| Xbin.Check | source/common/src/xbin.c:90-126 | 0 if and only if header and data checksums are right; 1 if and only if the first twelve bytes are not the two magics and the version; otherwise 2 |
| Xbin.OneByteMovesBothHalves | bootloader/library/adler32/adler32.c:165-230 | below 65521 bytes, changing one byte changes both halves of the checksum |
| Xbin.HeaderCorruptionRejected | source/common/src/xbin.c:100-106 | a valid header with any one or two of its 256 bytes changed (covered bytes, stored checksum, or one of each) is no longer accepted |
| Xbin.DataCorruption | source/common/src/xbin.c:108-117 | with the header intact, one changed data byte is never accepted, and two changed bytes exactly if they cancel at a multiple of 65521 |
| Loader.File.Read | bootloader/src/bl_mmc_copy.c:165-166 | f_read as a cursor over the file's bytes, with numbered calls that may fail |
| Loader.BootLoader.CopyChunk | bootloader/src/bl_mmc_copy.c:165-193 | one round: a read, a terminating zero, and always 511 bytes to RAM |
| Loader.BootLoader.CopyNext | bootloader/src/bl_mmc_copy.c:159-199 | the progress one round makes, including the last, short one |
| Loader.BootLoader.CopyPayload | bootloader/src/bl_mmc_copy.c:159-199 | the copy loop ends after floor(P/511)+1 reads or at the first failing one; RAM in either case |
| Loader.BootLoader.ImageCopy | bootloader/src/bl_mmc_copy.c:93-224 | which of the five ways out is taken, the return value, entryPoint for each of them, and all of RAM; 0 with entryPoint set if and only if a copy read failed (or the file did not open and it was set before) |
| Loader.OutcomeUnique | bootloader/src/bl_mmc_copy.c:93-224 | the file, the failing reads and the buffers before the call determine the outcome |
| Loader.ReadErrorHappens | bootloader/src/bl_mmc_copy.c:172-176 | the exit that leaves entryPoint set is reachable with every file whose header is good |
| Loader.RamHoldsPayload | bootloader/src/bl_mmc_copy.c:159-199 | after a complete copy RAM holds the payload in order, one zero, the bytes of one chunk earlier (or of the old buffer), and beyond 511*(floor(P/511)+1) bytes is untouched |
| Loader.LoadedMeans | bootloader/src/bl_mmc_copy.c:132-142 | a loaded image has a valid header, and its checksum was computed on genuine payload bytes if the announced size is within the payload |
| Loader.OtherHeaderRefused | bootloader/src/bl_mmc_copy.c:132-153 | a file with another magic or header version in its bytes, however sealed, or with a wrong header checksum, ends in the exit that clears entryPoint |
| Loader.CorruptHeaderRefused | bootloader/src/bl_mmc_copy.c:132-153 | a loadable file with one or two header bytes changed ends in the exit that clears entryPoint |
| Loader.CorruptImageRefused | bootloader/src/bl_mmc_copy.c:211-218 | a loadable file with one or two nearby image bytes changed is never loaded and, if reads succeed, ends in the exit that clears entryPoint |
| FwInstall.ValidImageMeans | source/common/src/xbin.c:156-171 | what makes a file a valid image, and which part of it the header accounts for, in the file's bytes |
| FwInstall.SealedIsValid | source/common/inc/xbin.h:67-81 | every name, version and data can be put behind a header that makes them a valid image, with exactly this name, version and data |
| FwInstall.CheckFileHeader | source/common/src/xbin.c:156-164 | the header structure after the read (a short file leaves its rest), and true if and only if it is good |
| FwInstall.CheckData | source/common/src/xbin.c:169-171 | the data buffer after the read (a short file leaves its rest), and true if and only if it has the header's checksum |
| FwInstall.CheckFile | source/common/src/xbin.c:201-213 | true if and only if header and data pass, read over what structure and buffer held |
| FwInstall.CompletePassesIff | source/common/src/xbin.c:156-171 | for a file as long as its header announces, the check passes if and only if the file is a valid image, whatever the buffers held |
| FwInstall.TruncatedPasses | source/common/src/xbin.c:187-216 | whatever first part of header and data is in the file, and whatever of that is read back, the read-back's check passes |
| FwInstall.XbinCopy | source/common/src/xbin.c:137-229 | firmware.bin and return value for every slot file, memory, old firmware.bin, failing open and short write |
| FwInstall.CopyIff | source/common/src/xbin.c:137-229 | for complete slot files: firmware.bin becomes as much of a valid slot's image part as is written, if there is memory and the target opens, and otherwise stays; when 0 is returned |
| FwInstall.OkInstalledIff | source/common/src/xbin.c:137-229 | when 0 is returned, the image is in firmware.bin if and only if it was written in full, or, if the target did not open, was there already |
| FwInstall.FailedInstalledIff | source/common/src/xbin.c:137-229 | when -1 is returned for an image that passes, it is in firmware.bin if and only if it was written in full, or was there already, and cannot be opened for reading |
| FwInstall.ShortWriteReturnsOk | source/common/src/xbin.c:187-216 | every short write of a valid image, even of none of it, returns 0 and leaves no valid image |
| FwInstall.OldFirmwareStays | source/common/src/xbin.c:187-216 | a slot image and an old firmware.bin for which 0 is returned and nothing is installed |
| FwInstall.InstalledImageBoots | bootloader/src/bl_mmc_copy.c:93-224 | every installed image is loaded by the boot loader whatever its buffers and RAM held, if no read fails, and its data lies at the load base |
| FwInstall.StoredIsValidIff | source/common/src/fs.c:389-451 | the file stored from an accepted upload is a valid image if and only if the upload holds all the data its header announces |
| FwInstall.UploadedImageBoots | source/common/src/fs.c:389-451 | an accepted upload of any size that holds its data is installed as its image part if and only if that is written in full, and then boots with exactly the uploaded data |
| CString.CrLfAt | source/common/src/elca_client.c:376-387 | byte by byte: the two bytes of each backslash-n pair become CR and LF, all others stay |
| CString.NoPairRemains | source/common/src/elca_client.c:376-387 | no pair remains |
| CString.CrLfIdempotent | source/common/src/elca_client.c:376-387 | a second conversion changes nothing |
| CString.ConvertTextarea | source/common/src/elca_client.c:376-387 | the in-place scan terminates and computes the left-to-right replacement; nothing behind the string's end changes |
| Der.LengthRoundTrip | source/common/library/mbedtls/library/asn1write.c:24-54 | length octets are read back by the rules of section 8.1.3 of X.690, in the shortest form, whatever follows |
| Der.WriteLength | source/common/library/mbedtls/library/asn1write.c:24-54 | writes exactly those octets backwards if and only if they fit, and otherwise nothing |
| Der.WriteTag | source/common/library/mbedtls/library/asn1write.c:56-65 | one byte, if there is room |
| Der.WriteRaw | source/common/library/mbedtls/library/asn1write.c:82-98 | the bytes in order, if there is room |
| SanWriter.WriteTlv | source/common/src/elca_client.c:284-286 | contents, length, tag; succeeds if and only if all three fit |
| SanWriter.WriteNames | source/common/src/elca_client.c:275-289 | the address at the end and each host in front of the ones before it, if and only if they fit |
| SanWriter.SanReads | source/common/src/elca_client.c:249-304 | for all hosts and addresses: read by the rules of X.690, the extension is one SEQUENCE of the hosts last to first, context-specific 2, and the address, context-specific 7 (section 4.2.1.6 of RFC 5280) |
| SanWriter.SanBytes | source/common/src/elca_client.c:275-292 | one short host and an address, byte by byte |
| SanWriter.SetSubjectAltName | source/common/src/elca_client.c:249-304 | no hosts: nothing; otherwise the DER of the names in a SEQUENCE if and only if it fits in 65 bytes per host and the request takes it; the work buffer is lost if and only if the names do not fit |
| SanParser.GetANStr | source/common/src/elca_client.c:430-534 | the search and the reading loop compute AltNames; a text has fewer than 256 bytes |
| SanParser.DecimalReads | source/common/src/elca_client.c:497-498 | a byte is printed as the decimal number it is, without leading zeros |
| SanParser.DottedReads | source/common/src/elca_client.c:497-498 | an address is printed as four numbers between three dots, in the order of its bytes |
| SanParser.NoIdentifier | source/common/src/elca_client.c:442-453 | without the identifier among the bytes searched there are no names |
| SanParser.OtherKind | source/common/src/elca_client.c:513-517 | a name of another kind is an error |
| SanParser.AnyAddress | source/common/src/elca_client.c:494-512 | an address of any announced length is printed from its first four bytes, if there is room in 256 |
| SanParser.BeyondTheEnd | source/common/src/elca_client.c:470-526 | names announced beyond the certificate's bytes, or none at all, are read astray |
| SanParser.SearchFinds | source/common/src/elca_client.c:442-468 | with no earlier match the search stops at the extension and takes the seventh byte for the length |
| SanParser.ReadAll | source/common/src/elca_client.c:469-520 | encoded names yield the hosts in encoding order and the dotted address, each followed by a space, if and only if that finds room in 256 bytes; otherwise an error |
| SanParser.RoundTripIff | source/common/src/elca_client.c:430-534 | reading a certificate that contains the written extension (section 4.2.1.6 of RFC 5280) gives the hosts in reverse list order and the address, without trailing space, if and only if the contents are at most 125 bytes |
| SanParser.ListedCut | source/common/src/elca_client.c:430-534 | cut at its spaces, the text read back is exactly the hosts, last to first, and the address |
| SanParser.ThreeLongHosts | source/common/src/elca_client.c:430-534 | three hosts of 60 characters, which the writer has room for and the reader does not give back |
| SanParser.TextSize | source/common/src/elca_client.c:469-520 | the text is at most 10 bytes longer than its encoding, and at least a sixth as long |
| SanParser.RequestNames | source/common/src/elca_client.c:876-891 | for the list a request is made with, the text read back is the request's own CSR_AN |
| Chain.CutIsShortest | source/common/src/elca_client.c:635-654 | the cut succeeds if and only if two non-overlapping END markers exist, and is the shortest prefix with two |
| Chain.MarkerIs | source/common/src/elca_client.c:637 | the marker, as text |
| Chain.KeptMeans | source/common/src/elca_client.c:620-687 | an upload stores c if and only if c is its shortest prefix with two markers, fits with its NUL in 2048 bytes, and parses without error to a certificate that is no CA and one that is |
| Chain.CodeMeans | source/common/src/elca_client.c:657-687 | the code of each check, -7 to -10 and -12, or what decoding for display gives |
| Chain.KeptIff | source/common/src/elca_client.c:620-687 | an upload stores c if and only if c is a prefix of it that is an acceptable chain |
| Chain.AcceptablePrefix | source/common/src/elca_client.c:635-654 | no proper prefix of an acceptable chain is one |
| Chain.SuccessIff | source/common/src/elca_client.c:657-687 | success if and only if the chain is kept and both certificates decode; a chain that does not decode is kept all the same |
| Chain.CertPage.CheckNewChain | source/common/src/elca_client.c:620-694 | stored buffer and return code, -6 to -12 check by check, on the buffers as the code edits them |
| Chain.CertPage.NewCrt | source/common/src/elca_client.c:1326-1333 | the "newcrt" request: empty text refused with -5, otherwise conversion and check; stored buffer and return code |
| Chain.RequestKeepsAcceptable | source/common/src/elca_client.c:1326-1333 | over any request NewCRT stays empty or an acceptable chain |
| UpdateTask.StepInv | source/common/src/elca_client.c:1229-1259 | every step of requests, tasks and power cuts keeps: NewCRT acceptable or empty; one update task if the start flag is set and none otherwise; result 0 if and only if that task has written and waits to reboot |
| UpdateTask.RunsAreSafe | source/common/src/elca_client.c:1229-1259 | over every run from power-up, without any condition: NewCRT is empty or acceptable, at most one update task is alive, and chain.crt is what it was, or empty, or acceptable |
| UpdateTask.RunRefines | source/common/src/elca_client.c:1229-1259 | over every run, buffer, flag and task list do what a machine with only the last kept chain and one optional task does; so an update writes exactly the last kept chain |
| UpdateTask.WriteIff | source/common/src/elca_client.c:1241 | writing some first bytes of the buffer gives nothing or an acceptable chain if and only if their number is 0 or the length of what the buffer holds then, which measuring in the same step ensures |
| UpdateTask.WholeIff | source/common/src/elca_client.c:1229-1259 | over every run: chain.crt is at all times what it was or a whole acceptable chain if and only if no update is written with nothing kept and power never fails inside a write |
| UpdateTask.UpdateWithoutUpload | source/common/src/elca_client.c:1366-1376 | an update requested right after the start empties chain.crt and reports success |
| UpdateTask.TaskMeans | source/common/src/elca_client.c:1229-1259 | a task's steps: result 1 and the delay; then the last kept chain on the card and result 0, or result -1 and its end; then the reboot |
| UpdateTask.RequestMeans | source/common/src/elca_client.c:1325-1376 | an upload keeps its chain, and an update starts a task if there is none |
| UpdateTask.PowerMeans | source/common/src/elca_client.c:1229-1259 | what a power cut leaves, inside a write and otherwise |
| UpdateTask.Client.UploadCrt | source/common/src/elca_client.c:1326-1333 | one NewCrt step, with its return code |
| UpdateTask.Client.RequestUpdate | source/common/src/elca_client.c:1366-1376 | one Update step: a task is created only if the start flag is not set |
| UpdateTask.Client.Start | source/common/src/elca_client.c:1233-1238 | a task up to its first delay is one step |
| UpdateTask.Client.Save | source/common/src/elca_client.c:1241-1258 | a task from its first delay to its second, or to its exit, is one step |
| CertStore.ReloadIff | source/common/src/cert.c:120-157 | a file comes back byte for byte with one NUL counted if and only if it is shorter than 2048 bytes and the read delivers all of it |
| CertStore.NotLoaded | source/common/src/cert.c:120-157 | a missing or too large file leaves the size as it was and the buffer all zeros |
| CertStore.Store.Init | source/common/src/cert.c:120-157 | both buffers and sizes after loading, however many bytes the reads deliver |
| CertStore.Check | source/common/src/cert.c:168-196 | 0 if and only if both files exist and open |
| CertStore.ElcaCallback | source/common/src/cert.c:207-250 | the two files after the callback, for each combination of failing opens; nothing on error |
| CertStore.WriteChainCert | source/common/src/cert.c:307-322 | the file holds exactly the given bytes; 0 if and only if it opened |
| CertStore.StartupRoundTripIff | source/common/src/cert.c:120-250 | whatever the startup callback writes, the key is reloaded exactly if and only if it is shorter than 2048 bytes, and the chain if and only if both certificates together are |
| CertStore.StartupRoundTrip | source/common/src/cert.c:120-250 | texts that end inside their 1024-byte buffers are always reloaded exactly |
| CertStore.UpdateRoundTrip | source/common/src/cert.c:120-157 | everything the update task can write is reloaded exactly |
| Provisioning.StepInv | source/common/src/elca_client.c:1111-1217 | the task has collected, in its own attempt, exactly what its place says |
| Provisioning.WritesOnlyWhenComplete | source/common/src/cert.c:207-250 | the card changes only when all four pieces of the running attempt are there, and gets exactly those |
| Provisioning.StepConsistentIff | source/common/src/cert.c:207-250 | a step keeps key and chain from one attempt if and only if it neither writes the chain after failing to open the key file nor the key beside a chain |
| Provisioning.ProvisioningSafeIff | source/src/main.c:574-582 | over every run of attempts, failures and power cuts from an empty card, with cert_Check() failing to open files or not: key and chain are at all times from one attempt if and only if no step does either |
| Provisioning.CheckedFilesMatchIff | source/common/src/cert.c:168-196 | over every run from an empty card: whenever cert_Check() is 0, key, device and intermediate certificate are from one attempt, if and only if no step puts a chain beside a key its attempt has not written, or a key beside a chain |
| Provisioning.FilesOpenIsKeyFirst | source/common/src/cert.c:224-229 | a run in which the key file opens when it is written, and existing files open at each start, meets the first condition |
| Provisioning.FilesOpenIsSafe | source/common/src/cert.c:224-229 | over every such run from an empty card, key and chain are at all times from one attempt, and so whenever cert_Check() is 0 |
| Provisioning.LostKey | source/common/src/cert.c:224-246 | a run of two attempts, a power cut and one failing open of the key file after which cert_Check() is 0 and the files do not match |
| Provisioning.LostChain | source/common/src/cert.c:168-196 | a run in which files that are there do not open at one start, with the same end |
| Provisioning.Client.GetInterCrt | source/common/src/elca_client.c:1140-1174 | the request loop ends with the first success |
| Provisioning.Client.Startup | source/common/src/elca_client.c:1111-1217 | one run of the startup task ends where the state machine says, with the files it says |
| Transfer.LoopEndsIff | source/common/src/fs.c:115-138 | over any reads, ReadBuffer's do/while loop has ended if and only if there was a read and what is missing of the file plus the number of reads that returned -1 is a multiple of 2^32; below that many failures, if and only if the file is read and none failed |
| Transfer.SizeCountsFailures | source/common/src/fs.c:120-136 | after any rounds, the size still to read is what is missing plus one for each failed read, and the index is that much too low, modulo 2^32 |
| Transfer.WriteAll | source/common/src/fs.c:351-368 | 0 if and only if every 4096-byte write is full; the file is then exactly the buffer's first bytes, and otherwise some first part of them |
| ImageStore.StepInv | source/common/src/fs.c:147-305 | for whole operations: the pointers to blocks that are used stay live, so every free is of a live block |
| ImageStore.StepOwnedIff | source/common/src/fs.c:147-305 | a step keeps "live blocks = {pWebImageBuffer} or none" if and only if it does not mount a card over an image still held |
| ImageStore.MountOverLoses | source/common/src/fs.c:229-231 | such a mount loses the block held |
| ImageStore.OwnedIff | source/common/src/fs.c:147-305 | the same over every run of whole operations |
| ImageStore.AlternatingRunsOwn | source/common/library/fsapi/src/fs_fatfs.c:380-430 | over every run of whole operations, of alternating card events mixed with upgrades, with failing allocations, failing mounts and replaced buffers, the live blocks are exactly {pWebImageBuffer} or none |
| ImageStore.NameLiveIff | source/common/library/fsapi/src/fs_xfile.c:433-514 | a step keeps xfile's name pointer in a live block if and only if it neither replaces the buffer nor refuses a newly inserted card's image behind a good header |
| ImageStore.AlwaysNameLiveIff | source/common/library/fsapi/src/fs_xfile.c:433-514 | the same over every run of alternating card events and upgrades from boot |
| ImageStore.NameOfReplaced | source/common/library/fsapi/src/fs_xfile.c:472-495 | a card with a compressed image leaves the name pointer in a freed block |
| ImageStore.UpgradeSelectsIff | source/common/src/fs.c:589-597 | a card put in after an upgrade mounts the upgraded slot if and only if web.bin could be written or named it already |
| ImageStore.SelectedMeans | source/common/src/fs.c:204-219 | without web.bin, or with an empty one, the first slot's file is mounted; otherwise the one its first byte names, and none for any other byte |
| ImageStore.SlotMeans | source/common/src/fs.c:578-582 | the file of each slot, and of no other index |
| ImageStore.MountedMeans | source/common/src/fs.c:147-173 | for each outcome of a mount: the live blocks, pWebImageBuffer, its size, and the blocks xfile uses |
| ImageStore.StepMeans | source/common/src/fs.c:198-305 | what each event does with the image there was and the new one |
| ImageStore.Store.ReadChunk | source/common/src/fs.c:120-134 | one round of the loop: at most 4096 bytes into the block at the index |
| ImageStore.Store.ReadBuffer | source/common/src/fs.c:115-138 | the whole file ends up in the block, however short each read is and however often a read returns nothing; in bounds, and it terminates |
| ImageStore.Store.XMount | source/common/library/fsapi/src/fs_xfile.c:433-514 | the blocks and pointers after xfile_Mount, for each way it ends |
| ImageStore.Store.Mount | source/common/src/fs.c:147-173 | allocate, read in chunks into the block, mount, free the replaced buffer |
| ImageStore.Store.UnMount | source/common/src/fs.c:182-189 | everything released and cleared |
| ImageStore.Store.SDMountCallback | source/common/src/fs.c:198-274 | the slot that web.bin names (1 without it) is mounted in one CardIn step, and the web server's root is the image if and only if it is accepted; no file, no change |
| ImageStore.Store.SDUnMountCallback | source/common/src/fs.c:283-298 | one CardOut step; the root is the ROM |
| ImageStore.Store.UpgradeWeb | source/common/src/fs.c:572-611 | one Upgrade step if the index is 1 or 2 and the slot file opens, and then web.bin names the slot; the return value only tells whether the file opened |
| ImageStore.Store.WebUpload | source/common/src/fs.c:316-378 | for a request alone (Uploads.GoodIff for several): 0 if and only if the check passes, the file opens and every write is full, and then the slot file is the uploaded bytes, otherwise some first part of them |
| ImageStore.Store.UploadAndUpgrade | source/common/src/fs.c:316-378 | for a request alone: after a successful upload, upgrading that slot hands xfile_Mount exactly the uploaded bytes, and a card put in later mounts them |
| ImageTasks.StepInv | source/common/src/fs.c:115-189 | every step of card events, upgrade beginnings and single reads keeps blocks and jobs well formed |
| ImageTasks.StepGoodIff | source/common/src/fs.c:115-189 | a step leaves every read in flight with its block live and in pWebImageBuffer, and no block lost, if and only if it is quiet |
| ImageTasks.GoodIff | source/common/src/fs.c:115-305 | the same over every run, in any order of events: the exact condition under which no read loses its block, nothing is written to freed memory, and no block is lost |
| ImageTasks.AlternatingGoodIff | source/common/library/fsapi/src/fs_fatfs.c:380-430 | with alternating card events: if and only if no card is pulled and no further upgrade begun while a read is in flight |
| ImageTasks.QuietRunsAreWhole | source/common/src/fs.c:115-173 | over every quiet run, however reads are split and interleaved, heap and pointers are those of the run in which each upgrade is one step, so xfile_Mount decides on exactly the slot's file |
| ImageTasks.TwoUpgrades | source/common/src/fs.c:120-125 | two upgrade requests whose reads all succeed, after which the first one writes to a freed block |
| ImageTasks.PulledReadsNothing | source/common/src/fs.c:115-138 | reads from a pulled card deliver nothing more |
| ImageTasks.NothingToMount | source/common/src/fs.c:155-157 | a last read that finds no image any more goes astray |
| ImageTasks.Tasks.BeginUpgrade | source/common/src/fs.c:586-587 | an upgrade request up to its first yield is one step |
| ImageTasks.Tasks.ReadNext | source/common/src/fs.c:120-171 | a task from one yield to the next is one step, with the mount after its last read |
| ImageTasks.Tasks.PullCard | source/common/src/fs.c:283-298 | the unmount callback is one step |
| ImageTasks.Tasks.InsertCard | source/common/src/fs.c:198-274 | the mount callback, which runs above the web tasks' priority, is one step |
| Uploads.StepInv | source/common/library/ipweb/src/web_cgi.c:1262-1330 | every step of requests keeps: UploadBuffer is the only block there is, and none is lost |
| Uploads.StepGoodIff | source/common/src/fs.c:316-451 | a step leaves every request its bytes in the shared buffer and its file exactly what it has written, if and only if it is quiet |
| Uploads.GoodIff | source/common/library/ipweb/src/web_cgi.c:1262-1330 | the same over every run of arrivals, pieces, writes and ends of any requests, in any order |
| Uploads.QuietRunsArePrivate | source/common/src/fs.c:316-451 | over every quiet run, files and requests are those of requests with a buffer each of their own |
| Uploads.Lossless | source/common/src/fs.c:351-368 | the file of a request that has written everything is exactly what it received |
| Uploads.OneIsQuiet | source/common/library/ipweb/src/web_cgi.c:1262-1330 | with one request at a time every step is quiet |
| Uploads.SharedBuffer | source/common/library/ipweb/src/web_cgi.c:1272-1284 | two requests of which the first reports success for a file with the second one's bytes in it |
| Uploads.SameSlot | source/common/src/fs.c:335-368 | two requests for one slot, the second short, that both report success for a file that is neither's |
| Uploads.ReleasedBuffer | source/common/library/ipweb/src/web_cgi.c:1326-1327 | two requests of which the first ends, and the second goes on with a released buffer |
| Uploads.CacheAgreesMeanwhile | source/common/src/fs.c:405-440 | between the writes of a firmware upload with a whole header, the cached name and version agree with what its file has got |
| Uploads.PieceMeans | source/common/library/ipweb/src/web_cgi.c:329-346 | a request whose data does not fit in 2 MB fails; any other piece is kept |
| Uploads.ChunkMeans | source/common/src/fs.c:351-368 | a chunk is what is left, at most 4096 bytes, and lands behind what the file has; a short write breaks the request |
| Uploads.RefusedMeans | source/common/src/fs.c:316-378 | a refused image, or a file that does not open, touches no file |
| Uploads.OverlayMeans | source/common/src/fs.c:355 | a write at an offset changes exactly the bytes from there on and fills a gap with zeros |
| Uploads.Server.NewRequest | source/common/library/ipweb/src/web_cgi.c:1262-1282 | a request's arrival is one step |
| Uploads.Server.Take | source/common/library/ipweb/src/web_cgi.c:329-346 | a received piece is one step |
| Uploads.Server.Store | source/common/src/fs.c:327-368 | check, open and first write are one step |
| Uploads.Server.WriteChunk | source/common/src/fs.c:352-364 | one round of the write loop |
| Uploads.Server.End | source/common/library/ipweb/src/web_cgi.c:1326-1329 | the release of the buffer is one step |
| FwCache.NameIsFresh | source/common/src/fs.c:773-813 | from an agreeing cache a name query that can read the file answers what a fresh read would ("empty" without a file) |
| FwCache.VersionIsFresh | source/common/src/fs.c:824-864 | the same for a version query (0 without a file) |
| FwCache.FailedAccessAgreesIff | source/common/src/fs.c:773-864 | after a name query that cannot open the file the cache agrees if and only if a name was cached already or the file's reads "empty"; no other query that cannot get at its file caches anything |
| FwCache.UploadAgreesIff | source/common/src/fs.c:405-440 | after an upload, complete or not, the cache agrees with the card if and only if the file got its whole header, or name and version are void, or, if the file did not open, they are the old file's |
| FwCache.AgreesIffAnswersFresh | source/common/src/fs.c:773-864 | the cache agrees with the card if and only if all four queries would be answered as by a fresh read |
| FwCache.AnswersAreFreshIff | source/common/src/fs.c:389-451 | over every run of queries and of uploads one at a time, successful or not: at all times every query that can read its file is answered as by a fresh read if and only if every step keeps the agreement |
| FwCache.AgreesAtEachYield | source/common/src/fs.c:425-440 | at each yield of the write loop the cache agrees with the file written so far under the same condition as at its end |
| FwCache.ShortUpload | source/common/src/fs.c:405-419 | an upload shorter than its header after which the next name query is not answered as by a fresh read |
| FwCache.EmptySticks | source/common/src/fs.c:792-806 | after one name query that cannot open the file, "empty" stays the answer |
| FwCache.FreshMeans | source/common/src/fs.c:773-864 | what a void cache answers: "empty" and 0 without a file, and otherwise the header's bytes 32 to 51 up to a NUL, and the word at 52 |
| FwCache.CachedMeans | source/common/src/fs.c:405-440 | what an upload caches and stores; a query that cannot read caches nothing |
| FwCache.IndexMeans | source/common/src/fs.c:403-419 | indices 1 and 2 name the slots; other queries change nothing, other uploads go to the second |
| FwCache.Cache.GetName | source/common/src/fs.c:773-813 | the query on the buffers; another index is an error |
| FwCache.Cache.GetVersion | source/common/src/fs.c:824-864 | the query on the variables; another index gives 0 |
| FwCache.Cache.FwUpload | source/common/src/fs.c:389-451 | for a request alone: 1 for a wrong magic or version and 2 for a wrong checksum, and then nothing changes; otherwise cache and file are one Upload step with what was written, 0 if and only if the file opened and every write was full, and else 4 |

## Left out

- FwInstall.XbinCopy: `slot` is what the reads of the slot file deliver. One case is excluded: the target does not open for writing, and behind a good header an old firmware.bin announces more data than the slot's image; the code then reads it past the end of its heap block.
- Loader.BootLoader.ImageCopy: a header that announces more data, or a file that is longer, than fits between the load base and the end of RAM is excluded; the code then reads or writes behind RAM.
- SanParser.GetANStr: where the C code would read outside the certificate or the output buffer the model stops with the outcome Stray; a name that announces more bytes than the certificate has counts as such even if a NUL ends the copy earlier.
- Transfer.LoopEndsIff: where the bytes of reads after a failed one go (the index is too low by then, and can lie before the buffer) is not modelled; ImageStore.Store.ReadBuffer and the upgrades in ImageTasks have no failing reads, except that reads from a pulled card deliver nothing more.
- FwCache.Cache.FwUpload: announced data that lies behind the end of memory is not modelled.
- Xbin.Check: the array is the memory from the image on; announced data that lies behind its end, which the code would read as well, is not modelled.
- FwCache.AnswersAreFreshIff: one card only; after a card swap nothing is claimed (the web caches are cleared then, the firmware caches are not). Uploads come one at a time; what several at once do to file and buffer is in Uploads. A name of 20 characters without a NUL is compared in its 20 bytes.
- UpdateTask.StepInv: a write to an open chain.crt is complete (the code does not look at its result), and a power cut inside it leaves the old file, an empty one or the new one.
- UpdateTask.Client.Save: the shared task control block and stack, which the startup task uses too, are not modelled.
- Provisioning.ProvisioningSafeIff: a file is written whole or not at all; power cuts inside one file write and chains written by web updates are not part of it.
- CertStore.ElcaCallback: writes to an open file are complete.
- CertStore.Store.Init: does not model a read that returns -1, after which the code writes its NUL in front of the buffer and takes the size for 0.
- ImageStore.Store.SDMountCallback: redirections are not modelled; xfile_Mount's decision is a function of the image, with a failing allocation or decompression counted as a refusal, and its directory and data are not modelled.
- ImageStore.Store.WebUpload: does not model the web name and version caches it sets, nor an upgrade of the slot while its write loop yields.
- Uploads.GoodIff: a write through a file that another request has created anew is modelled as landing in the new file at its own offset; what it does to the card's allocation is FatFs's business. After a piece did not fit into the buffer, a request takes no further part, although the code may still put a shorter piece in front of the buffer's end.
- ImageTasks.Tasks.ReadNext: a task whose block was freed, or that has no image to mount at its end, is a step of the machine (to a stray state) but has no method, because the code then uses memory it does not own; likewise Uploads.Server.Take and Uploads.Server.Store.
- ImageTasks.GoodIff: a file that is overwritten by an upload while an upgrade reads it is not modelled; block numbers stand for addresses and are not used again.
- Loader.BootLoader.ImageCopy: the guard against a read of 512 bytes or more is not written out, because a read never returns more than it is asked for.
- xfile_Check and the contents of web images: the check of a web upload is a parameter; only that of firmware images is modelled.
- The web names and versions: the same code as for firmware with other file names, and would only add easy members.
- The "reqcsr" and "result" modes of the certificate page, GetSubjectTag, CRTDecode's texts, JSON and HTTP output: text plumbing.
- Key generation, CSR creation beyond its alternative names, AES, PBKDF2, certificate parsing and verification, the ELCA messages: Mbed TLS and network code, entering as parameters.
- FatFs, diskio, DDR, PLL and board set-up, LEDs, delays, terminal output: hardware and I/O.
- xmempool, etc, nvm and iperf: configuration reads and thin wrappers.
