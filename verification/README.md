# Verified model of maas-boot-proxy

maas-boot-proxy serves bare-metal machines that boot from a virtual CD. For each machine it
builds, in memory, a UEFI-bootable ISO 9660 image around a FAT12 EFI system partition that holds
the iPXE binary and a script made for that machine. It caches the images, keeps the table of
machines up to date from a file, adds a network overlay (a cpio archive with a bonding hook) and
kernel parameters to the boot, and rewrites rack addresses in whatever it forwards, inside
self-extracting archives as well. Two shell scripts of the same chart keep the rack controllers
alive and choose which of them serve DHCP.

The model follows the program's parts, a module for each:

| part | modules |
|---|---|
| in-place writes to byte images | `Bytes` |
| the FAT12 partition and an independent reader of it | `Fat12`, `FatNames`, `EspImage`, `FatReader`, `EspTheorems` |
| the ISO image and its two readers (El Torito, ISO 9660) | `BootIso`, `IsoReader`, `IsoTheorems` |
| the boot script and an interpreter for it | `Nodes`, `Text`, `IpxeLang`, `IpxeScript`, `IpxeSetup`, `IpxePass`, `IpxeLabels`, `IpxeText`, `IpxeReader`, `IpxeExact`, `IpxeBoot`, `IpxeAttempts` |
| the image cache and concurrent requests | `ConfigKey`, `IsoCache`, `IsoService` |
| the overlay archive | `Newc` |
| kernel parameters and the hook that reads them | `KernelNet` |
| rewriting text and archives | `Rewriter`, `Replacement`, `LineWrap`, `PayloadArchive`, `PayloadTheorems`, `PayloadSums` |
| the table of machines | `NodeStore`, `NodeReloads` |
| the rack scripts | `Watchdog`, `RackAssignment` |

`dafny verify dfyconfig.toml` checks all of it.

## Main results

- **What is written can be read.** For every binary and script the builder accepts, a reader that
  knows nothing of the builder, following boot record, catalogue, boot sector, allocation table and
  directories, recovers exactly both; the route through the ISO root directory reaches the same
  partition (`IsoTheorems.BootIsoRoundTrip`). Images of different inputs differ
  (`IsoTheorems.IsoInjective`).
- **What the script does.** The script is text, and it is text that is run: a reader takes it apart
  into lines, words, nested references and commands, and gives back the script that was meant if and
  only if the fields in it are safe, which is a condition on each field (`IpxeBoot.RenderedReads`).
  For every such node, every list of devices and every pattern of failures, the text then attempts
  `chain` on exactly the selected devices, in order, pass after pass, up to the first success
  (`IpxeBoot.FirstPassOfText`, `IpxeBoot.PassesOfText`). At every step of every run, an attempt is
  made only on a device that was just brought up and has the node's address, netmask, gateway and
  name server set (`IpxeAttempts.AttemptsOfText`).
- **Caching is invisible.** In every interleaving of any number of requests with sweeps, every served
  request has the bytes of a fresh build if and only if no two requests for one key have one hash and
  different images (`IsoService.FreshExactly`); requests with one-line fields and members without
  commas are such (`IsoService.ServedFresh`). The cache refines a specification over histories in which
  sweeps do not occur (`IsoCache.HitMeans`, `IsoCache.ReapsIrrelevant`).
- **What replacing means.** Text is cut at the leftmost occurrences or addresses, one after the other;
  the pieces stay and every cut becomes the replacement (`Replacement.ReplaceAllMeans`,
  `Replacement.SubstituteMeans`).
- **Round trips.** The cpio overlay (`Newc.OverlayRoundTrip`), the kernel command line as the hook
  reads it (`KernelNet.CommandLineRoundTrip`), and rewritten archives
  (`PayloadTheorems.RewrittenReadsBack`).
- **State machines.** The store's nodes and digest come from one file content under any
  interleaving of reloads (`NodeReloads.FromOneContent`); the watchdog's restarts are spaced, bounded
  and timely over every run (`Watchdog.Spaced`, `AtMostMax`, `Paid`, `RestartsInTime`); the rack
  assignment is a fixed point (`RackAssignment.FixedPoint`).

## Where the code does not do what one might expect

Each of these has an input that shows it and the exact condition under which the expected property
holds.

- A newline in a field of a node changes the boot script: with a VLAN of `5`, newline, `goto os_done`
  the script ends without an attempt (`IpxeBoot.NewlineSkips`). The script is read as it was meant
  exactly when the fields are safe (`IpxeBoot.RenderedReads`): every value consists of words separated
  by single spaces, none of them a separator or the start of a comment, with no `${...}` in it; the
  proxy address is one such word; host name and MAC address have no newline.
- The cache key does not tell one bond member with a comma in it from the two members it spells,
  nor text that a newline carries from one field into the next, although the scripts differ
  (`ConfigKey.CommaCollision`, `ConfigKey.NewlineCollision`); there are runs in which a request is served
  an image that is not its own (`IsoService.CommaConfuses`, `IsoService.NewlineConfuses`). Over any
  requests there is such a run exactly when two of them clash (`IsoService.FreshExactly`); with one-line
  fields, exactly when two that differ only in how their members are cut have different scripts
  (`IsoService.OneLineExactly`).
- Whether rack addresses survive the rewriting depends on the proxy address. For one without
  dollar signs, all inputs come out clean exactly when it is sealed, a finite condition on its text (`Rewriter.SealedExactly`); for addresses of
  the form http://host/path that is exactly when it does not end like the beginning of `http://`
  (`Rewriter.SealedProxy`). An address that is only a scheme and a host is not sealed
  (`Rewriter.HostOnlyUnsealed`).
- A rewritten archive is read back correctly exactly when the substitutions make no marker line in
  its header: `PayloadTheorems.RewrittenReadsBack`. The built-in substitution never makes one
  (`PayloadTheorems.ProxyArchive`); a configured rule can (`PayloadTheorems.RuleBreaksArchive`).
- Colons in the fields of the `ip=` word move the device, one place for each colon before it
  (`KernelNet.DeviceAtPlace`). It stands where the kernel looks for it exactly when address, gateway,
  netmask and host name have no colon (`KernelNet.AddressedDevice`). An IPv6 address has some: with
  fe80::1 the netmask stands there instead (`KernelNet.AddressShifted`).
- If the only active rack is the secondary and it does not run, the rack script makes it primary
  and leaves it secondary as well: `RackAssignment.Doubled`, `RackAssignment.DoubledExactly`.
- Keys in the nodes file that have one canonical form but different nodes make the result of
  loading depend on map iteration order: `NodeStore.ParseDetermined`.
- The comments of the watchdog speak of consecutive failed checks. The code also counts failures
  that are separated by checks which found the region unreachable or the unit inactive
  (`Watchdog.GapsIgnored`), and restarts on them (`Watchdog.SplitRestarts`). At a restart the last
  FAILURE_THRESHOLD checks were all degraded exactly when none of them was of that kind
  (`Watchdog.ConsecutiveExactly`). The model follows the code.
- The comment on `Put` says that the next successful load replaces an added entry. A load that
  finds the content unchanged keeps it: `NodeStore.NodeStore.Reload`.

## Assumptions

Library code is represented by functions with these properties, stated as hypotheses where they
are used: SHA-256 does not collide among the requests or contents of a run; base64 decoding undoes encoding,
and encoded text has no white space; unpacking undoes packing; an MD5 sum prints as 32 hexadecimal
digits. Clock readings are arguments, and do not go back where a lemma says so. In the iPXE
interpreter `set` always succeeds, a line ending in `||` succeeds whatever its command did, `goto`
looks for its label from the start of the script, and names of devices that do not exist expand to
nothing. Its reader splits lines at white space, takes `&&`, `||` and `;` as separators and a word that
starts with `#` as a comment, expands `${...}` inside out, joins the values of `set` by spaces, and fails
on commands it does not know.

## Model

| member | source | states |
|---|---|---|
| Bytes.Copy | images/maas-boot-proxy/isoimage.go:338-339 | copying into a slice truncates at its end, returns the count, and leaves everything before and after as it was |
| Fat12.GetPack | images/maas-boot-proxy/isoimage_test.go:52-59 | a reader of the packed 12-bit table sees the plain array of entries, although neighbours share bytes |
| Fat12.SetRefinesUpdate | images/maas-boot-proxy/isoimage.go:260-269 | the read-modify-write of shared bytes is exactly one update of the plain array; every other entry keeps its value |
| Fat12.Set | images/maas-boot-proxy/isoimage.go:260-269 | the in-place write keeps the array the packing of the updated entries |
| Fat12.Chain | images/maas-boot-proxy/isoimage.go:327-337 | the loop links exactly its run of clusters, ends it, and touches no other entry |
| FatNames.ShownShortName | images/maas-boot-proxy/isoimage.go:203-211 | padding a name to 8.3 form and trimming it as a reader does gives the name back |
| FatNames.DirEntryFields | images/maas-boot-proxy/isoimage.go:213-221 | name, attribute, first cluster and size of an entry read back from it; the bytes between them are the fixed dates and zeros |
| FatNames.ComputeChecksum | images/maas-boot-proxy/isoimage.go:229-232 | the loop computes the checksum that ties long and short names, which `FatNames.ChecksumLaw` describes |
| FatNames.ChecksumLaw | images/maas-boot-proxy/isoimage.go:229-232 | the checksum starts at zero, and each character is added to the byte that, turned left by one bit, is the sum so far |
| EspTheorems.SameSum | images/maas-boot-proxy/isoimage.go:229-232 | for every name it is the sum that the reader computes by a definition of its own |
| EspTheorems.ScriptSum | images/maas-boot-proxy/isoimage.go:353-357 | the long name of the script carries the sum 0x33 |
| FatNames.LfnEntryCorrect | images/maas-boot-proxy/isoimage.go:228-258 | each of the 13 name slots, the attribute and the checksum are at their places in the entry |
| FatNames.LfnSlots | images/maas-boot-proxy/isoimage.go:236-258 | character k of the name stands at byte 2k + 1, 2k + 4 or 2k + 6, then a zero, then 0xFFFF |
| FatNames.LfnEntryUnique | images/maas-boot-proxy/isoimage.go:228-258 | that description leaves no byte of the entry open |
| FatNames.BuildLfnEntry | images/maas-boot-proxy/isoimage.go:228-258 | the loops over the three groups of slots build that entry |
| FatNames.LongNameRoundTrip | images/maas-boot-proxy/isoimage_test.go:72-85 | every long name of up to 13 ordinary characters reads back from its entry |
| EspImage.NothingTruncates | images/maas-boot-proxy/isoimage.go:290-313 | for every accepted input no 16-bit or 32-bit field overflows, table writes are in bounds, and no link reaches the bad-cluster mark |
| EspImage.RegionsDisjoint | images/maas-boot-proxy/isoimage.go:284-300 | boot sector, both tables, directories and files occupy disjoint ranges inside the image |
| EspImage.BuildTable | images/maas-boot-proxy/isoimage.go:322-337 | the in-place table is the packing of two directory entries and two chains |
| EspImage.PutDirectories | images/maas-boot-proxy/isoimage.go:345-365 | root, /EFI and /EFI/BOOT are written at their clusters and nothing else changes |
| EspImage.BuildEspImage | images/maas-boot-proxy/isoimage.go:273-370 | an image exactly for non-empty scripts that fit 4084 clusters; its bytes are zeros overwritten by the listed regions |
| EspTheorems.AcceptsExactly | images/maas-boot-proxy/isoimage.go:273-300 | an input is accepted if and only if the script is not empty and the files fill at most 4082 clusters of 2048 bytes; the size of the image follows from those numbers |
| EspTheorems.BootSectorBytes | images/maas-boot-proxy/isoimage.go:302-320 | every byte of the boot sector that is the same in all images, spelled out |
| EspTheorems.AttributeBytes | images/maas-boot-proxy/isoimage.go:345-365 | the attribute byte of every directory entry |
| EspTheorems.VolumeRead | images/maas-boot-proxy/isoimage_test.go:38-51 | a reader of the boot sector derives the builder's geometry |
| EspTheorems.NextIs | images/maas-boot-proxy/isoimage_test.go:52-59 | every link a reader follows in the image is the one the builder meant |
| EspTheorems.ChainsPartition | images/maas-boot-proxy/isoimage.go:322-337 | directories and files are chains of consecutive clusters, ended by 0xFFF, that cover clusters 2 to clusters + 1 once each |
| EspTheorems.ReadStored | images/maas-boot-proxy/isoimage_test.go:60-67 | following a chain returns content of any length, on and off cluster boundaries |
| EspTheorems.RootListing | images/maas-boot-proxy/isoimage.go:353-357 | the root lists the script under its long and short names and /EFI, and no other name |
| EspTheorems.EfiListing | images/maas-boot-proxy/isoimage.go:358-361 | /EFI lists itself, its parent and BOOT, and no other name |
| EspTheorems.BootListing | images/maas-boot-proxy/isoimage.go:362-365 | /EFI/BOOT lists itself, its parent and BOOTX64.EFI, and no other name |
| EspTheorems.UnwrittenZero | images/maas-boot-proxy/isoimage.go:300-370 | every byte outside the written regions is zero |
| EspTheorems.TablesEqual | images/maas-boot-proxy/isoimage.go:338-339 | both copies of the allocation table, as located by a reader, are equal |
| EspTheorems.TypedFat12 | images/maas-boot-proxy/isoimage.go:290-313 | the cluster count a reader derives is the builder's and makes the volume FAT12 |
| EspTheorems.EspRoundTrip | images/maas-boot-proxy/isoimage.go:273-370 | for every accepted input, and whatever follows the image, the reader recovers /EFI/BOOT/BOOTX64.EFI and /autoexec.ipxe exactly |
| BootIso.ValidationSumsToZero | images/maas-boot-proxy/isoimage.go:143-152 | by the builder's own sum the words of the validation entry come to zero modulo 65536 |
| IsoTheorems.SameSum | images/maas-boot-proxy/isoimage.go:148-151 | for every even number of bytes the builder's sum is the reader's, which it computes by a definition of its own |
| IsoTheorems.ValidationSum | images/maas-boot-proxy/isoimage.go:143-152 | by the reader's sum the words of the validation entry come to zero modulo 65536 |
| IsoTheorems.ValidationBytes | images/maas-boot-proxy/isoimage.go:143-152 | the validation entry byte for byte, with the checksum 0x71CA |
| BootIso.SumWords | images/maas-boot-proxy/isoimage.go:148-151 | the wrapping 16-bit loop is the sum of the words modulo 65536, the same as a reader's by `IsoTheorems.SameSum` |
| BootIso.PutValidation | images/maas-boot-proxy/isoimage.go:142-152 | field by field writes with a checksum taken in between give that entry |
| BootIso.RegionsDisjoint | images/maas-boot-proxy/isoimage.go:96-173 | descriptors, catalogue, root directory, path tables and partition occupy disjoint ranges inside the image |
| BootIso.NothingTruncates | images/maas-boot-proxy/isoimage.go:154-156 | the partition's count of 512-byte units fits the catalogue's 16-bit field, without remainder |
| BootIso.PutIso | images/maas-boot-proxy/isoimage.go:96-173 | the sequence of in-place writes leaves exactly the listed regions |
| BootIso.BuildBootIso | images/maas-boot-proxy/isoimage.go:89-173 | an ISO exactly for a non-empty binary and a script the partition accepts, with those bytes |
| IsoTheorems.BootRecordRead | images/maas-boot-proxy/isoimage.go:132-136 | the boot record is recognised and points to the catalogue |
| IsoTheorems.BootEntryRead | images/maas-boot-proxy/isoimage.go:142-156 | the catalogue passes validation and names the partition's address and length |
| IsoTheorems.BootImageRead | images/maas-boot-proxy/isoimage.go:89-173 | the El Torito route yields the partition, followed only by the zeros that fill its last sector |
| IsoTheorems.RecordFields | images/maas-boot-proxy/isoimage.go:62-77 | every directory record has an even length it states itself, and its fields read back |
| IsoTheorems.RecordLayout | images/maas-boot-proxy/isoimage.go:62-77 | every byte of every directory record |
| IsoTheorems.PvdNames | images/maas-boot-proxy/isoimage.go:108-109 | the volume is called IPXE_BOOT; the rest of both names is blank |
| IsoTheorems.PvdNumbers | images/maas-boot-proxy/isoimage.go:111-117 | volume set size and number, block size, path table size and places, byte for byte in both orders |
| IsoTheorems.PvdRooted | images/maas-boot-proxy/isoimage.go:118 | the descriptor holds the record of the root directory |
| IsoTheorems.PvdBlanks | images/maas-boot-proxy/isoimage.go:119-125 | all other names of the descriptor are blank |
| IsoTheorems.PvdStamps | images/maas-boot-proxy/isoimage.go:126-130 | the four dates, of which only the third is unset, and the structure version |
| IsoTheorems.DateBytes | images/maas-boot-proxy/isoimage.go:79-85 | the digits of both dates |
| IsoTheorems.RootByEitherTable | images/maas-boot-proxy/isoimage.go:168-169 | a reader finds the root directory through the path table of either byte order |
| IsoTheorems.TerminatorFound | images/maas-boot-proxy/isoimage.go:132-141 | a reader of the descriptor set stops at the terminator, after the two descriptors |
| IsoTheorems.RootFlags | images/maas-boot-proxy/isoimage.go:160-166 | the root and its parent are directories, the partition is a file |
| IsoTheorems.BothOrdersAgree | images/maas-boot-proxy/isoimage.go:48-51 | both halves of a both-byte-order field hold the number |
| IsoTheorems.RootListing | images/maas-boot-proxy/isoimage.go:158-167 | the root directory lists itself, its parent and ESP.IMG;1, and no other name |
| IsoTheorems.RootFileRead | images/maas-boot-proxy/isoimage.go:89-173 | the ISO 9660 route reads ESP.IMG;1 as exactly the partition and finds no other file |
| IsoTheorems.SizesExact | images/maas-boot-proxy/isoimage.go:96-99 | the announced volume size is the image's, and the catalogue's count the partition's |
| IsoTheorems.UnwrittenZero | images/maas-boot-proxy/isoimage.go:99-173 | every byte outside the written regions is zero |
| IsoTheorems.BootIsoRoundTrip | images/maas-boot-proxy/isoimage.go:89-173 | for every accepted input both routes lead to the partition, and its reader recovers binary and script exactly |
| IsoTheorems.IsoInjective | images/maas-boot-proxy/isoimage.go:89-173 | accepted inputs with equal images are equal |
| Nodes.PciMeans | images/maas-boot-proxy/nodes_store.go:193-195 | a member counts as a PCI address if and only if it has two colons, or a colon and a dot |
| IpxeReader.WordReadsBack | images/maas-boot-proxy/iso_builder.go:77-143 | every word of texts and nested references, as printed, is read as itself |
| IpxeExact.TextExact | images/maas-boot-proxy/iso_builder.go:70-160 | a printed script is read as itself if and only if each of its lines is one line and is read as itself |
| IpxeExact.PrintUndoes | images/maas-boot-proxy/iso_builder.go:77-143 | whatever a word is read as prints as its text again |
| IpxeExact.ReadAsIs | images/maas-boot-proxy/iso_builder.go:77-143 | exactly the text without a closed reference is read as it is |
| IpxeExact.SetExact | images/maas-boot-proxy/iso_builder.go:78-133 | a set line is read as it was meant if and only if its value is single-spaced words without separators, comments and references |
| IpxeExact.ChainExact | images/maas-boot-proxy/iso_builder.go:137-138 | the chain line is read as it was meant if and only if the proxy address is one word that starts no comment and has no reference |
| IpxeBoot.RenderedReads | images/maas-boot-proxy/iso_builder.go:70-160 | for every node, reading the rendered text gives the script that was meant if and only if its fields, the formatted PCI addresses and the proxy address are safe |
| IpxeBoot.FirstPassOfText | images/maas-boot-proxy/iso_builder.go:70-160 | running the rendered text, `chain` is attempted on exactly the devices matching a PCI member, or the MAC, or all, in index order, up to the first success |
| IpxeBoot.NextPassOfText | images/maas-boot-proxy/iso_builder.go:149-155 | after an unsuccessful pass the same holds of the next |
| IpxeBoot.PassesOfText | images/maas-boot-proxy/iso_builder.go:70-160 | over any number of passes the selected devices are tried in order, over and over, up to the first success; without one, k times each after k passes |
| IpxePass.BackToTop | images/maas-boot-proxy/iso_builder.go:149-155 | after an unsuccessful pass the script starts over, three seconds later, with its settings as they were |
| IpxeSetup.ConfigureEnds | images/maas-boot-proxy/iso_builder.go:115-135 | configuring a device runs exactly the commands that restart it, make its VLAN and open its interface, and leaves the node's settings in force on that interface |
| IpxeSetup.CleanupEnds | images/maas-boot-proxy/iso_builder.go:141-145 | cleaning up runs exactly the commands that take VLAN and device down, and changes no setting |
| IpxePass.BodyRun | images/maas-boot-proxy/iso_builder.go:115-145 | on a selected device there is one attempt; if it fails, the commands of configuring and cleaning up were run, once each and in order |
| IpxeAttempts.EveryAttemptReady | images/maas-boot-proxy/iso_builder.go:70-160 | at every step of every run, if the next line is an attempt then the node's settings are in force on the device it is made on, and the device was just brought up |
| IpxeAttempts.AttemptsOfText | images/maas-boot-proxy/iso_builder.go:70-160 | the same for the rendered text |
| IpxeBoot.JumpsOfText | images/maas-boot-proxy/iso_builder.go:70-160 | every label that is jumped to in the rendered text occurs exactly once in it |
| IpxeBoot.NewlineSkips | images/maas-boot-proxy/iso_builder.go:78-81 | with a certain newline in the VLAN the text ends the script without an attempt, for every node and all devices |
| IpxeBoot.NewlineFreeNeeded | images/maas-boot-proxy/iso_builder.go:70-160 | wherever the rendered text is read as meant, none of its fields, nor the proxy address, nor a formatted PCI address has a newline |
| ConfigKey.PreimageEqual | images/maas-boot-proxy/iso_builder.go:28-47 | hashed texts are equal if and only if all fields, the joined members, the MAC and the trimmed proxy address are |
| ConfigKey.JoinUnique | images/maas-boot-proxy/iso_builder.go:28-47 | joins of members without commas are equal if and only if the members are, or there is nothing but at most one empty member on either side |
| ConfigKey.KeyIdentifiesScript | images/maas-boot-proxy/iso_builder.go:28-47 | with such members equal texts mean equal rendered scripts, and equal nodes but for an empty member |
| ConfigKey.CommaCollision | images/maas-boot-proxy/iso_builder.go:28-47 | with a comma, two nodes whose rendered scripts differ, byte for byte, share a text |
| ConfigKey.CommaCollisionExists | images/maas-boot-proxy/nodes_store.go:193-195 | there are members to which this applies, with formatted addresses that differ |
| ConfigKey.NewlineCollision | images/maas-boot-proxy/iso_builder.go:28-47 | with newlines, two nodes whose rendered scripts differ share a text, for every node and any text that moves |
| ConfigKey.GenericApart | images/maas-boot-proxy/iso_builder.go:199-202 | the text hashed for the generic image is never that of a node |
| Text.LowerMeans | images/maas-boot-proxy/iso_cache.go:52 | lower case identifies exactly the texts that differ at most in ASCII case, letter by letter |
| Text.TrimParts | images/maas-boot-proxy/iso_cache.go:52 | trimming takes white space off both ends and nothing else, and leaves none there |
| Text.TrimIs | images/maas-boot-proxy/iso_cache.go:52 | whatever white space is put around a text, trimming gives the text back |
| Text.TrimSlashesParts | images/maas-boot-proxy/iso_builder.go:71 | the trimmed address is followed only by slashes |
| IsoCache.KeyMeans | images/maas-boot-proxy/iso_cache.go:52 | two addresses share an entry if and only if, trimmed, they differ at most in ASCII case |
| IsoCache.KeysApart | images/maas-boot-proxy/iso_cache.go:70 | different addresses in canonical form have different entries |
| IsoCache.KeySpelled | images/maas-boot-proxy/iso_cache.go:70 | every spelling of an address, in any mixture of cases and with white space around it, has the entry of the address |
| IsoCache.StoreThenLook | images/maas-boot-proxy/iso_cache.go:51-83 | a store is found under every spelling of its address until it is too old, and leaves the lookups of every other address as they were |
| IsoCache.ISOCache.constructor | images/maas-boot-proxy/iso_cache.go:35-48 | the time to live is the one given, or half an hour |
| IsoCache.ISOCache.Get | images/maas-boot-proxy/iso_cache.go:51-66 | a lookup returns the entry of its key, which `IsoCache.KeyMeans` describes, within its time to live and touches it, or removes it |
| IsoCache.ISOCache.Set | images/maas-boot-proxy/iso_cache.go:69-83 | a store replaces the entry of its key and no other |
| IsoCache.ISOCache.Reap | images/maas-boot-proxy/iso_cache.go:93-106 | in whatever order entries are visited, exactly the expired ones go, and they are counted |
| IsoCache.ReapedMeans | images/maas-boot-proxy/iso_cache.go:93-106 | a sweep leaves exactly the entries touched within the time to live, as they were |
| IsoCache.StoreAgrees | images/maas-boot-proxy/iso_cache.go:51-106 | after every history with a forward clock, the map holds what the specification has live |
| IsoCache.GetRefines | images/maas-boot-proxy/iso_cache.go:51-66 | every lookup answers as the specification over histories says |
| IsoCache.ReapsIrrelevant | images/maas-boot-proxy/iso_cache.go:93-106 | adding or removing sweeps anywhere changes no lookup |
| IsoCache.UnbrokenLive | images/maas-boot-proxy/iso_cache.go:51-106 | a store whose later touches never lie further apart than the time to live is live |
| IsoCache.LiveUnbroken | images/maas-boot-proxy/iso_cache.go:51-106 | and only such a store is |
| IsoCache.HitMeans | images/maas-boot-proxy/iso_cache.go:51-106 | a lookup hits if and only if there is such a store, touched within the time to live, and returns its data |
| IsoService.Build | images/maas-boot-proxy/iso_builder.go:164-166 | a build succeeds exactly when the specification has an image, and returns that image |
| IsoService.CachedIso | images/maas-boot-proxy/main.go:309-319 | a hit with the wanted hash is served; anything else is built, stored and served, or refused without storing |
| IsoService.EntriesApart | images/maas-boot-proxy/main.go:309-319 | requests for different nodes, and for the generic image, have entries of their own; requests for one node share one, however its address is spelled |
| IsoService.SamePreimageSameImage | images/maas-boot-proxy/iso_builder.go:28-47 | requests with the same key text have the same image |
| IsoService.StepKeeps | images/maas-boot-proxy/main.go:309-319 | every atomic step of every request, and every sweep, keeps each cached entry the work of a request for its key, and each answer fresh, unless requests clash |
| IsoService.FreshExactly | images/maas-boot-proxy/main.go:309-319 | every request of every interleaving has the bytes of a fresh build, or is refused because that fails, if and only if no two requests for one key have one hash and different images |
| IsoService.OneLineExactly | images/maas-boot-proxy/main.go:309-319 | for one-line fields that is if and only if requests that differ only in how their members are cut have the same script, where an image can be built |
| IsoService.ServedFresh | images/maas-boot-proxy/main.go:309-319 | it is so for all requests with one-line fields and members without commas |
| IsoService.CommaConfuses | images/maas-boot-proxy/main.go:309-319 | it is not so for two requests between which a member with a comma becomes two |
| IsoService.NewlineConfuses | images/maas-boot-proxy/main.go:309-319 | nor for two between which text moves over a newline from one field to the next |
| Newc.Hex8RoundTrip | images/maas-boot-proxy/overlay.go:87-88 | every 32-bit number reads back from its eight hexadecimal digits |
| Newc.HexUpper | images/maas-boot-proxy/overlay.go:87-88 | the digits are decimal ones and capitals |
| Newc.OtherFieldsZero | images/maas-boot-proxy/overlay.go:85-95 | owner, times, devices and checksum of every entry read as zero |
| Newc.Buffer.PadTo4 | images/maas-boot-proxy/overlay.go:97-101 | the loop appends the zeros up to the next multiple of four, and stops |
| Newc.Buffer.WriteNewc | images/maas-boot-proxy/overlay.go:85-95 | an entry is appended with header, name and data each padded |
| Newc.AppendAligned | images/maas-boot-proxy/overlay.go:85-101 | an entry of an aligned archive does not depend on where it stands, and leaves the archive aligned |
| Newc.BuildArchive | images/maas-boot-proxy/overlay.go:41-73 | the walk writes the files in order with inode numbers from one, and the trailer |
| Newc.ArchiveRoundTrip | images/maas-boot-proxy/overlay.go:69-101 | parsing gives back any list of writable entries, with nothing left over |
| Newc.OverlayRoundTrip | images/maas-boot-proxy/overlay.go:41-73 | the overlay of any list of files reads back as exactly those files, in order: name, content, inode number, and the mode of a directory, of the one executable script, or of a plain file |
| KernelNet.ReadCmdline | images/maas-boot-proxy/initramfs-bond-overlay/scripts/init-premount/bond:30-40 | the hook's loop leaves in each variable the value that the specification reads from the words |
| KernelNet.LastValueMeans | images/maas-boot-proxy/initramfs-bond-overlay/scripts/init-premount/bond:30-40 | that is the value of the last word with the prefix |
| KernelNet.BondValues | images/maas-boot-proxy/main.go:230-286 | each of the hook's variables gets the node's field, or, where it is empty, bond0, 802.3ad, fast or layer3+4 |
| KernelNet.SplitJoin | images/maas-boot-proxy/initramfs-bond-overlay/scripts/init-premount/bond:84-97 | splitting the member list gives the members back |
| KernelNet.HookMeans | images/maas-boot-proxy/initramfs-bond-overlay/scripts/init-premount/bond:42-45 | the hook acts if and only if it has a name and members, and fills in a missing mode, rate or hash policy |
| KernelNet.HookFollowsNode | images/maas-boot-proxy/initramfs-bond-overlay/scripts/init-premount/bond:30-45 | amid other words the hook sets up the bond that the node's fields or those four values describe, and on it the device with the VLAN after a dot; nothing for nodes without members |
| KernelNet.CommandLineRoundTrip | images/maas-boot-proxy/main.go:230-286 | the same through text: printed parameters anywhere in a command line |
| KernelNet.PrintedWords | images/maas-boot-proxy/main.go:230-286 | which words are printed, in which order: the address first, a vlan= word for a single interface on a VLAN, the hook's own for a bond, and the last one; a configured text replaces them |
| KernelNet.IpWordFields | images/maas-boot-proxy/main.go:230-286 | without colons in the values, the fields of the ip= word are address, nothing, gateway, netmask, host name, device, none and the name servers |
| KernelNet.DeviceIs | images/maas-boot-proxy/main.go:242-272 | the device is the bond or the interface, with the VLAN after a dot when there is one |
| KernelNet.DeviceAtPlace | images/maas-boot-proxy/main.go:230-286 | for every node, the device stands in the ip= word as many places on as there are colons in the fields before it |
| KernelNet.AddressedDevice | images/maas-boot-proxy/initramfs-bond-overlay/scripts/init-premount/bond:119-120 | the device the hook creates is the sixth field of ip= if and only if no field before it has a colon, and is one field if and only if it has none itself |
| KernelNet.AddressShifted | images/maas-boot-proxy/main.go:230-286 | with the IPv6 address fe80::1 the netmask stands in the place of the device, which is two places on |
| Rewriter.MatchMeans | images/maas-boot-proxy/rewriter.go:32 | a match is the scheme, a run of at least one host character, and the port, and nothing else |
| Rewriter.SubstituteAll | images/maas-boot-proxy/rewriter.go:45-55 | the loop computes the substitutions that `Replacement.SubsMeans` and `Replacement.RulesInOrder` describe |
| Replacement.ReplaceAllMeans | images/maas-boot-proxy/rewriter.go:49-53 | the text is cut at its occurrences, each the leftmost that is left, the pieces stay, and every occurrence becomes the replacement; none is left in the last piece |
| Replacement.ReplaceAbsent | images/maas-boot-proxy/rewriter.go:49-53 | text without an occurrence is left as it is |
| Replacement.RulesInOrder | images/maas-boot-proxy/rewriter.go:49-53 | the rules act in order, each on what the ones before it left; one with nothing to look for does nothing |
| Replacement.HostCharMeans | images/maas-boot-proxy/rewriter.go:32 | the characters a host part may not have, by number |
| Replacement.SubstituteMeans | images/maas-boot-proxy/rewriter.go:45-48 | the text is cut at its rack addresses, leftmost first, the pieces stay, and every address becomes the base |
| Replacement.SubsMeans | images/maas-boot-proxy/rewriter.go:45-55 | the rules act on the text with its addresses replaced, or, without a base, on the text itself |
| Rewriter.SealedClean | images/maas-boot-proxy/rewriter.go:43-48 | with a sealed base without dollar signs, whatever its form, no input leaves a rack address |
| Rewriter.UnsealedLeaves | images/maas-boot-proxy/rewriter.go:43-48 | with any other base without dollar signs some input leaves one |
| Rewriter.SealedExactly | images/maas-boot-proxy/rewriter.go:43-48 | with a base without dollar signs, all inputs come out clean if and only if the base is sealed |
| Rewriter.SealedProxy | images/maas-boot-proxy/rewriter.go:43-48 | a base http://host/path is sealed if and only if it does not end like the beginning of a scheme |
| Rewriter.HostOnlyUnsealed | images/maas-boot-proxy/main.go:480-483 | a base of scheme and host alone is never sealed |
| LineWrap.LineWrapWriter.constructor | images/maas-boot-proxy/rewriter.go:148 | a writer starts with nothing written, at the start of a line |
| LineWrap.LineWrapWriter.Write | images/maas-boot-proxy/rewriter.go:177-198 | for every positive line length the loop ends, the column stays below the length, and the output is wrapped character by character |
| LineWrap.ChunksIrrelevant | images/maas-boot-proxy/rewriter.go:177-198 | output depends only on the concatenation of the writes |
| LineWrap.LinesExact | images/maas-boot-proxy/rewriter.go:177-198 | every completed line has exactly the line length |
| LineWrap.UnwrapRestores | images/maas-boot-proxy/rewriter.go:177-198 | removing newlines restores the data |
| PayloadArchive.FindMarker | images/maas-boot-proxy/rewriter.go:58-65 | the first line that is the marker, with or without a carriage return; none before it |
| PayloadArchive.RewriteEntries | images/maas-boot-proxy/rewriter.go:96-130 | the loop keeps the entries in order, maps regular contents with their sizes and leaves the others untouched, or gives up if any entry fails to be read or written |
| PayloadArchive.WriteArchive | images/maas-boot-proxy/rewriter.go:146-168 | header, marker and wrapped payload are written through the wrapping writer, each ending its line |
| PayloadArchive.AssembledReadsBack | images/maas-boot-proxy/rewriter.go:146-168 | such text reads back as header, payload and entries if and only if the header has no marker line |
| PayloadArchive.RewriteData | images/maas-boot-proxy/rewriter.go:38-169 | stage by stage, with the trimmed base and the configured rules, the result is that of the specification |
| PayloadArchive.AllOrNothing | images/maas-boot-proxy/rewriter.go:38-169 | an archive that can be read and written again is rewritten as a whole; every other input is substituted as a whole |
| PayloadTheorems.ReplacedMarker | images/maas-boot-proxy/rewriter.go:144 | replacing sums neither makes nor removes a marker line |
| PayloadTheorems.SumsMatch | images/maas-boot-proxy/rewriter.go:139-144 | every sum at the start of a line of the new header is the digest given |
| PayloadSums.SumReplaced | images/maas-boot-proxy/rewriter.go:144 | every line of the header that starts with a quoted sum of 32 hexadecimal digits gets the new digest in single quotes |
| PayloadSums.ElseKept | images/maas-boot-proxy/rewriter.go:144 | every character outside those sums stays where it is |
| PayloadSums.EntryMeans | images/maas-boot-proxy/rewriter.go:103-125 | a regular file is substituted and its size adjusted, its other attributes stay; everything else stays as it is |
| PayloadSums.AssembledLines | images/maas-boot-proxy/rewriter.go:146-168 | header, marker on a line of its own, payload in lines of 76 characters |
| PayloadSums.OpenedMeans | images/maas-boot-proxy/rewriter.go:58-92 | what is opened as an archive has gzip data after its first marker line, and the text before it as header |
| PayloadTheorems.SubstitutedMarker | images/maas-boot-proxy/rewriter.go:45-48 | the built-in substitution makes no marker line |
| PayloadTheorems.HeaderClean | images/maas-boot-proxy/rewriter.go:58-65 | the header of an archive has no marker line |
| PayloadTheorems.RewrittenReadsBack | images/maas-boot-proxy/rewriter.go:38-169 | a rewritten archive reads back with the new header and every entry mapped, if and only if substitution made no marker line in the header |
| PayloadTheorems.RewrittenSums | images/maas-boot-proxy/rewriter.go:139-144 | every sum in the header read from the output is the digest of the payload read from the same output |
| PayloadTheorems.ProxyArchive | images/maas-boot-proxy/rewriter.go:38-169 | with the built-in substitution alone it always does |
| PayloadTheorems.RuleBreaksArchive | images/maas-boot-proxy/rewriter.go:49-53 | an archive and a configured rule for which the rewritten archive does not read back |
| NodeStore.NormalizeNodes | images/maas-boot-proxy/nodes_store.go:146-150 | in whatever order the nodes come, every key appears in canonical form with the node of a key of that form, and nothing else appears |
| NodeStore.ParseDetermined | images/maas-boot-proxy/nodes_store.go:146-150 | the result is determined if and only if keys of one form have one node |
| NodeStore.DiffNodes | images/maas-boot-proxy/nodes_store.go:153-169 | the counts are those of the new, gone and changed keys, and the sizes differ by added less removed |
| NodeStore.NoDifference | images/maas-boot-proxy/nodes_store.go:153-169 | no difference is reported if and only if the nodes are the same |
| NodeStore.FoundAfterLoad | images/maas-boot-proxy/nodes_store.go:62-67 | after loading, a key finds a node if and only if some key of the file spells the same, and then the node of such a key |
| NodeStore.NodeStore.Put | images/maas-boot-proxy/nodes_store.go:70-74 | every spelling of the key finds the new node, every other key what it found before, and the digest is left alone |
| NodeStore.NodeStore.Reload | images/maas-boot-proxy/nodes_store.go:85-124 | a missing, unreadable, repeated, invalid or too new file changes nothing; other content replaces nodes and digest together |
| NodeReloads.ReloadAlone | images/maas-boot-proxy/nodes_store.go:85-124 | the steps of a reload, taken together, do what the store's reload does, in each of its cases |
| NodeReloads.OverlayMeans | images/maas-boot-proxy/nodes_store.go:70-74 | of the additions laid over, a key finds the last one made to it, or what it found before |
| NodeReloads.HoldsOwn | images/maas-boot-proxy/nodes_store.go:85-124 | among interleaved reloads, each works on the content it read itself |
| NodeReloads.BeforeFirst | images/maas-boot-proxy/nodes_store.go:57-124 | until content is accepted, the nodes are the additions and there is no digest |
| NodeReloads.FromOneContent | images/maas-boot-proxy/nodes_store.go:85-124 | after every interleaving, nodes and digest belong to the content accepted last, with the additions since laid over it |
| NodeReloads.UnchangedMeans | images/maas-boot-proxy/nodes_store.go:98-104 | a reload reports no change if and only if it read the content accepted last |
| NodeReloads.NeverUnchangedFirst | images/maas-boot-proxy/nodes_store.go:98-104 | the first content is never taken for unchanged |
| Watchdog.Watchdog.Check | charts/maas/templates/bin/_maas-rackd-watchdog.sh.tpl:87-145 | a check acts as the history calls for, and the counters stay those of the history |
| Watchdog.Watch | charts/maas/templates/bin/_maas-rackd-watchdog.sh.tpl:83-145 | a status restart happens at a check if and only if threshold, cooldown and restart limit, counted over the history, allow it |
| Watchdog.UnitRestartExactly | charts/maas/templates/bin/_maas-rackd-watchdog.sh.tpl:87-100 | in every run a check restarts the unit if and only if it found it failed, and restarts for the status only on a degraded one |
| Watchdog.FailuresMean | charts/maas/templates/bin/_maas-rackd-watchdog.sh.tpl:110-143 | the failures counted are the degraded checks since the status was last running or restarted for |
| Watchdog.RestartsMean | charts/maas/templates/bin/_maas-rackd-watchdog.sh.tpl:110-143 | the restarts counted are those since it was last running |
| Watchdog.LastRestartMeans | charts/maas/templates/bin/_maas-rackd-watchdog.sh.tpl:87-143 | the time remembered is that of the last restart of either kind, zero before the first |
| Watchdog.Spaced | charts/maas/templates/bin/_maas-rackd-watchdog.sh.tpl:128-144 | it comes at least COOLDOWN after every earlier restart of either kind |
| Watchdog.AtMostMax | charts/maas/templates/bin/_maas-rackd-watchdog.sh.tpl:110-142 | between observations of a running status there are at most MAX_RESTARTS |
| Watchdog.Paid | charts/maas/templates/bin/_maas-rackd-watchdog.sh.tpl:120-143 | FAILURE_THRESHOLD times the restarts, and the failures pending, never exceed the degraded checks |
| Watchdog.RestartsInTime | charts/maas/templates/bin/_maas-rackd-watchdog.sh.tpl:120-144 | FAILURE_THRESHOLD degraded checks in a row past the cooldown, with restarts left, include a restart |
| Watchdog.GapsIgnored | charts/maas/templates/bin/_maas-rackd-watchdog.sh.tpl:90-105 | checks that find unit or region unavailable do not start the counts again |
| Watchdog.SplitRestarts | charts/maas/templates/bin/_maas-rackd-watchdog.sh.tpl:100-144 | a run restarts although no two degraded checks follow one another, with a threshold of two |
| Watchdog.ConsecutiveExactly | charts/maas/templates/bin/_maas-rackd-watchdog.sh.tpl:25-27 | at a restart the last FAILURE_THRESHOLD checks were all degraded if and only if none of them found the region unreachable or the unit inactive |
| RackAssignment.FindOther | charts/maas/templates/bin/_rack-dhcp-setup-orphaned-racks-cleanup.sh.tpl:161-167 | the search loop finds the first rack other than the given one, or none |
| RackAssignment.FirstOtherIs | charts/maas/templates/bin/_rack-dhcp-setup-orphaned-racks-cleanup.sh.tpl:161-167 | every earlier rack is the excluded one |
| RackAssignment.Assign | charts/maas/templates/bin/_rack-dhcp-setup-orphaned-racks-cleanup.sh.tpl:143-179 | the four assignments in turn give the targets |
| RackAssignment.Update | charts/maas/templates/bin/_rack-dhcp-setup-orphaned-racks-cleanup.sh.tpl:181-250 | the case distinctions on what needs to change amount to setting the targets and enabling DHCP |
| RackAssignment.KeepsRunning | charts/maas/templates/bin/_rack-dhcp-setup-orphaned-racks-cleanup.sh.tpl:148-157 | a running rack in office stays in office |
| RackAssignment.FillsBoth | charts/maas/templates/bin/_rack-dhcp-setup-orphaned-racks-cleanup.sh.tpl:159-179 | with two active racks both offices are filled with active racks |
| RackAssignment.OneActive | charts/maas/templates/bin/_rack-dhcp-setup-orphaned-racks-cleanup.sh.tpl:159-179 | with at most one active rack, when exactly there is no target for primary; then nothing changes, and otherwise that rack becomes primary, DHCP is on and the secondary stays |
| RackAssignment.TargetsDistinct | charts/maas/templates/bin/_rack-dhcp-setup-orphaned-racks-cleanup.sh.tpl:143-179 | the targets coincide if and only if one running rack held both offices |
| RackAssignment.DoubledExactly | charts/maas/templates/bin/_rack-dhcp-setup-orphaned-racks-cleanup.sh.tpl:143-250 | from distinct offices one rack ends up in both if and only if it is the only active one, the secondary, and does not run |
| RackAssignment.Doubled | charts/maas/templates/bin/_rack-dhcp-setup-orphaned-racks-cleanup.sh.tpl:143-250 | an instance of this |
| RackAssignment.FixedPoint | charts/maas/templates/bin/_rack-dhcp-setup-orphaned-racks-cleanup.sh.tpl:137-250 | applying the assignment again to the same racks changes nothing |

## Left out

- HTTP serving, proxying, range requests, logging, configuration reload and the deadline loop of node lookup: input and output, or easy members.
- The internals of gzip, tar, base64, MD5, SHA-256, JSON and MAC parsing; see Assumptions.
- `formatIPXEPCI`: a given function in the script model, since it rests on scanning rules of the library.
- The text of the generic script, which has no decisions that depend on a node.
- IpxeBoot.FirstPassOfText: continuation lines are not modelled; devices are assumed to have a MAC address, and the counter of devices does not wrap around.
- IpxeAttempts.AttemptsOfText: the same holds; device commands are recorded and succeed or fail arbitrarily, their effect on the device is not modelled.
- IsoTheorems.BootIsoRoundTrip: the reader compares long names as UTF-16 units, without decoding them, and refuses a chain that is too short where a Go slice expression could reach into spare capacity.
- IsoCache.ISOCache.Get: the two clock readings of one call are arguments; a store's reading, taken before the lock, is not assumed to be in order.
- IsoCache.KeyMeans: case folding and white space are those of ASCII.
- IsoService.ServedFresh: for one-line fields and members without commas; `IsoService.FreshExactly` has the exact condition.
- KernelNet.CommandLineRoundTrip: for fields without white space and non-empty members without commas; words are split at all white space, where a shell splits at space, tab and newline; resolving members to interfaces and the effects on devices are not modelled.
- PayloadTheorems.RewrittenReadsBack: reading after writing is assumed to return tar headers as they were given to the writer.
- Rewriter.SealedExactly: without configured rules, and for bases without dollar signs, which would refer to groups of the match.
- LineWrap.LineWrapWriter.Write: the underlying writer does not fail.
- NodeStore.NodeStore.Reload: log messages and the note of the last error; nodes are compared as values, where the code compares their JSON.
- RackAssignment.Assign: the list of active racks is taken as given in its sorted order; names are compared as strings, where the script matches them as patterns.
- Watchdog.Watch: a finite number of iterations of the endless loop, any number of them.
- `injectOverlayInitrd`, the Kubernetes queries, Helm templates and images.
