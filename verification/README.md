# Verification of rosshield's offline checks

This project models the parts of rosshield that decide a verdict without a running server, and proves what
they promise. Each module that follows a source file names it in its first lines. `dafny verify dfyconfig.toml`
checks the whole project.

**The pass_logic compiler.** A ROS2 item's conditions and its AND/OR/NOT tree become one bash script. `PassLogic`,
`Conditions` and `Ros2` follow the compiler. `Shell` is a fragment of the Shell Command Language of POSIX.1-2017
(quoting of section 2.2, pipelines and `!` of 2.9.2, AND-OR lists of 2.9.3, brace groups and `if` of 2.9.4): a lexer,
a parser and an evaluator, with the machine as an oracle from command text to output. `ShellLex`, `ShellParse` and
`CompilerText` show that the emitted text is read back as the tree; `CompilerCorrect`, `TextSearch` and `CompilerMeaning` show that it
decides the tree. A `grep -q` may leave while `printf` still writes; a machine has a length that `printf` hands over in one
write, and a moment at which `grep` leaves.

**The audit verifier.** `Audit` and `ExportVerify` follow the offline check of an exported bundle, and `AuditHistory` says what acceptance
means. `AuditWriter` follows how the tenants' chains and key tables grow from the migrations on, under one server process after
another: appends, the hash transition, key rotations, and restarts, which forget the cached transition and go back to epoch 1.
`AuditExport` says exactly which exports of such chains the verifier accepts, and `ExportTrust` what an accepted one has to do with its keys. `SegmentChain` follows the check of rotated segments.

**The CIS text machines.** `AuditRules` to `AuditRuleMatch` follow audit-rule normalisation on both sides, as text
rewriting character by character; `AuditRuleLines` collects wrapped rules; `CommandAbsorb` rebuilds commands
broken over lines; `GrubCfg` cuts expected lines at placeholders; `DoubleQuotes` says which texts survive Go's `%q` and bash's double
quotes; `CisReport` compares the three conversion reports.

**The pack archive, the backup and the scan table.** `PackArchive` and `PackLoader` follow the archive builder and the server's loader,
`Backup` and `Restore` the two halves of the backup, and `FleetSchedule` the cron table. `Common`, `Bytes`, `TextLines` and
`Sorting` hold what they share.

Outside code enters as parameters: hashing, JSON, Ed25519, cosign, regular-expression recognisers, the outputs of
audited commands, and the host's collation. Where collision-freedom or faithful decoding is needed it is a hypothesis
of the lemma. That these hypotheses can be met, all at once, is proved as well: `Library` writes every document as a text of its own,
`ExportLibrary` and `PackLibrary` make of it a library for the exports of every state and for any packs.

## What does not hold

Some promises of the code or its comments fail. The lemmas give the exact condition under which they hold.

- Exports of the audit chain. `AuditExport.HonestExports` is the exact condition for every tenant, range and format:
  - The migrations give the system tenant an epoch-1 row whose key is the text `__bootstrap__`, which triggers keep for ever and the
    verifier cannot decode; no other tenant has a row (`internal/platform/storage/migrations/sqlite/0037_audit_chain_keys.sql:52`). Under the usual
    name of the system tenant every v2 or v3 export is refused (`AuditExport.DefaultExportsRefused`).
  - The v1 and v2 formats are checked with the v1 hash throughout, so one entry with an epoch written behind the hash transition makes the export be
    refused (`AuditExport.OldFormatRefused`). Together: what is recorded behind the transition can be exported in no format
    (`AuditExport.NothingBehindSwitch`).
  - A comment at `cmd/rosshield-audit-verify/export_verify.go:421-424` says that a v3 bundle whose transition number is 0 is checked with the v3
    hash; the code at lines 461-466 uses v1 (`AuditExport.LateExportRefused`).
  - The cached transition number is the process's, not the tenant's, so another tenant's v3 export can announce a marker it does not have
    (`AuditExport.ForeignMarkerRefused`).
  - A rotation is recorded under the old epoch (`internal/domain/audit/keyrotation/rotator.go:310-325`), while the verifier demands a growing one
    (`export_verify.go:545`); only a rotation right after another of the same server start passes
    (`AuditExport.RotationExportRefused`, `AuditExport.RestartRotationRefused`).
- The `contains` and `regex` operators search with `grep -q`, by lines. `contains` is a substring search exactly when the expected text is not empty, has no
  newline and is not an option, and `regex` exactly when it is not an option; a text is one when it is longer than one character and starts with a dash
  (`CompilerMeaning.SearchTextExact`).
- Under `pipefail` a match is lost when `grep -q` leaves before `printf` has written everything; then a true condition fails and its negation passes
  (`CompilerMeaning.LostMatch`). Test and operator agree whenever `grep` leaves exactly when the output fits into one write or no line before its last
  one matches (`CompilerMeaning.TestMeaning`).
- Go keeps repeated syscalls and sorts bytes, the script drops repeats and sorts in the host's locale, and it overwrites the first `-S` list with the last.
  `AuditRuleMatch.RulesAgree` says exactly which host rule then matches; a baseline list with a repeated syscall, and a rule whose last list does not name the
  syscalls of its first, never match (`AuditRuleMatch.RepeatsNeverFound`, `AuditRuleMatch.SplitListsNeverFound`).
- `%q` and bash's double quotes differ: a rule or token is read back as itself exactly when it is printable, has no backquote, and no dollar sign in front of
  the start of an expansion (`DoubleQuotes.QuoteExact`).
- The server's loader refuses a path that has two dots in a row anywhere, so a pack with a file named `notes..md` is built and signed but cannot be loaded
  (`PackLoader.DottedNameRefused`; `PackLoader.BuiltLoads` is the exact condition).
- A restore over the root directory refuses every entry (`Restore.RootRefusesAll`).
- A fleet of the system tenant keeps its job only until a restart (`FleetSchedule.SystemFleetLost`; `FleetSchedule.IncrementalIsBatch` is the exact condition).

## Model

| member | source | states |
|---|---|---|
| PassLogic.PassLogicToBash | cmd/pack-tools/converter/passlogic.go:42-51 | There is a text if and only if the field is JSON, is a tree of the format, and its leaves can all be translated; it is then the text of that tree. |
| PassLogic.PassLogicNodeToBash | cmd/pack-tools/converter/passlogic.go:53-75 | The recursion gives a text if and only if the node reads as a tree over leaves that can be translated, and then that tree's text. |
| PassLogic.JoinPassLogicChildren | cmd/pack-tools/converter/passlogic.go:77-94 | The loop leaves every child in braces, joined by the operator; the first failing child decides the error. |
| PassLogic.NotPassLogicChild | cmd/pack-tools/converter/passlogic.go:96-109 | There is a text if and only if the arguments are a list of one tree; it is the negation of that tree's text in braces. |
| PassLogic.AcceptedTrees | cmd/pack-tools/converter/passlogic.go:42-109 | A node has a text if and only if it is a tree of the format, as an independent reader of JSON has it, whose leaves can all be translated; then no AND or OR is empty and the text is that tree's. |
| Conditions.TranslatedExact | cmd/pack-tools/converter/condition.go:48-85 | A condition has a test if and only if it has no pattern, is no number and has one of the six text operators; any other one is refused with the first reason that applies. |
| Ros2.BuildBashCombine | cmd/pack-tools/converter/ros2.go:193-240 | The script of the conditions and the tree, with the map of IDs filled in order. |
| Ros2.ConvertROS2Item | cmd/pack-tools/converter/ros2.go:146-182 | An item is translated if and only if it has conditions and its tree is one whose IDs stand for conditions on the whole output as a text: no pattern, not a number, and one of six operators; the command wraps the script around that tree's text. Any other check looks for a text that no output has. |
| Ros2.ConvertROS2 | cmd/pack-tools/converter/ros2.go:102-141 | A document is refused if and only if it is empty or repeats an ID; the report counts every check once and lists the degraded ones in order. |
| Ros2.KeptPlaces | cmd/pack-tools/converter/ros2.go:122-129 | The items that become checks are those with an ID, all of them, in order. |
| ShellLex.RunEscaped | cmd/pack-tools/converter/condition.go:103-105 | Inside single quotes the escaped form of any string adds exactly that string to the word, whatever follows. |
| ShellLex.RunQuoted | cmd/pack-tools/converter/condition.go:103-105 | A quoted string continues the word it stands in. |
| ShellLex.RunSetupLine | cmd/pack-tools/converter/condition.go:93-95 | A setup line is one word: the variable, and one command substitution with the command in it. |
| CompilerText.LeafLexes | cmd/pack-tools/converter/condition.go:52-85 | The text of each operator's test lexes to the words of that test, with the expected value as one quoted word. |
| CompilerText.LeafReads | cmd/pack-tools/converter/condition.go:52-85 | Those words parse to one command or one pipeline, wherever they stand in a list. |
| CompilerText.TreeLexes | cmd/pack-tools/converter/passlogic.go:53-109 | At any depth the text of a tree lexes to the tree's tokens. |
| CompilerText.TreeReads | cmd/pack-tools/converter/passlogic.go:53-109 | At any depth those tokens parse to one command of the tree's own shape. |
| CompilerText.TreeUnmixed | cmd/pack-tools/converter/passlogic.go:77-94 | No list without braces mixes the two operators, so their equal precedence never matters. |
| CompilerCorrect.TreeRuns | cmd/pack-tools/converter/passlogic.go:53-109 | If every leaf decides a valuation, the compiled command succeeds if and only if the tree is true of it. |
| CompilerCorrect.LastOneWins | cmd/pack-tools/converter/ros2.go:193-226 | With repeated IDs, the condition the map keeps is the one whose output the variable holds in the end. |
| Ros2.AcceptedScripts | cmd/pack-tools/converter/ros2.go:193-240 | A script exists if and only if the tree is proper, its IDs are known and each can be translated; its logic is the tree's text. |
| CompilerCorrect.ScriptDecides | cmd/pack-tools/converter/ros2.go:193-240 | On every machine an accepted script writes the PASS line if the tree is true of the emitted tests and the FAIL line if not, and nothing else; where bash refuses one of the commands as incomplete it writes nothing. |
| CompilerCorrect.QuoteRoundTrip | cmd/pack-tools/converter/condition.go:103-105 | Any string, quoted, lexes to one word that expands to the string. |
| CompilerCorrect.WrapBashLexes | cmd/pack-tools/converter/ros2.go:246-248 | The wrapped script lexes to exactly the three words bash, -c and the script. |
| CompilerCorrect.WrapBashRuns | cmd/pack-tools/converter/ros2.go:246-248 | Running the wrapped command is running the script, so values quoted in it survive both levels. |
| CompilerCorrect.ItemVerdict | cmd/pack-tools/converter/ros2.go:146-240 | A check passes if and only if its item was translated, bash takes each of its commands as a list of whole commands, and the tree is true of the emitted tests; a degraded check never passes. |
| TextSearch.LineSearch | cmd/pack-tools/converter/condition.go:73-74 | Searching line by line finds a one-line pattern if and only if the whole text contains it. |
| CompilerMeaning.SearchTextExact | cmd/pack-tools/converter/condition.go:52-85 | The emitted test decides what the operator says on every machine that takes the output in one write, if and only if the expected text is not an option (a dash with something behind it) and, for contains, is one line that is not empty. |
| CompilerCorrect.MeetsText | cmd/pack-tools/converter/condition.go:48-85 | For what has a test, the meaning of the condition, which in general looks at what its pattern takes out or at a number, is its operator on the whole output. |
| CompilerMeaning.NoTestDecides | cmd/pack-tools/converter/condition.go:48-85 | What is refused for its pattern or its numbers no test of the output alone could decide: for any such test there is a machine and an output on which it is wrong. |
| CompilerMeaning.TestMeaning | cmd/pack-tools/converter/ros2.go:230-238 | Test and operator agree at whatever moment grep leaves, if and only if the output is at most one write long or no line before its last one matches. |
| CompilerMeaning.CompilerCorrectness | cmd/pack-tools/converter/ros2.go:146-240 | End to end, over every machine whose outputs are safe in that sense: the check passes if and only if the item was translated, bash takes each of its commands as a list of whole commands, and its tree is true of what its conditions mean on their outputs, patterns and numbers included. |
| CompilerMeaning.LostMatch | cmd/pack-tools/converter/ros2.go:230-238 | For any longer output with a match before its last line there is a moment for grep to leave at which a true condition fails and its negation passes. |
| CompilerMeaning.LostInList | cmd/pack-tools/converter/ros2.go:230-238 | For a condition that lsmod names a module this happens with every list, header and padded columns, that is longer than one write and has the module in any line but the last. |
| CompilerMeaning.LostMatchExists | cmd/pack-tools/converter/ros2.go:230-238 | For any length of a write there is a machine with such a list. |
| Audit.MetaTells | internal/domain/audit/hash.go:106-206 | Two entries have one metadata document of a version if and only if they agree on all its fields: seven, and with v3 nine. |
| Audit.VersionsAgree | internal/domain/audit/hash.go:106-206 | The two versions give an entry one document if and only if it carries no epoch. |
| Audit.SeqTold | internal/domain/audit/hash.go:106-206 | Equal documents of any versions carry one sequence number. |
| Audit.PreimageTells | internal/domain/audit/hash.go:65-90 | What is hashed tells the previous hash, the payload digest and the metadata apart. |
| Audit.PreimageParts | internal/domain/audit/hash.go:65-90 | What is hashed is the previous hash, the payload digest and the metadata, in this order. |
| Audit.CanonicalKeys | internal/domain/audit/hash.go:106-206 | The names in the canonical documents, in their order, with and without the optional ones. |
| ExportVerify.BuildEpochMap | cmd/rosshield-audit-verify/export_verify.go:326-354 | It succeeds if and only if there are rows and all have distinct positive epochs and good keys; the map then holds exactly those rows. |
| ExportVerify.VerifyHashChainForBundle | cmd/rosshield-audit-verify/export_verify.go:425-447 | No error if and only if every entry hashes to what it stores and is linked to its predecessor; otherwise the first entry that breaks it, and which of the two it breaks. |
| ExportVerify.VerifyHashVersionTransitionMarker | cmd/rosshield-audit-verify/export_verify.go:478-505 | No error if and only if the markers are none for transition 0, and one at the announced number otherwise. |
| ExportVerify.VerifyEpochTransitions | cmd/rosshield-audit-verify/export_verify.go:517-552 | It succeeds with the number of rotations if and only if each has a declared epoch above its predecessor's; otherwise the first that has not. |
| ExportVerify.VerifySigned | cmd/rosshield-audit-verify/export_verify.go:150-239 | It passes if and only if some epoch map and entry list satisfy every check, with the right counts, and the stage it names on failure does not hold. |
| ExportVerify.VerifyExportBundle | cmd/rosshield-audit-verify/export_verify.go:115-239 | It passes if and only if the stream splits, the signature line decodes and the bundle is sound. |
| ExportTrust.AcceptedSigned | cmd/rosshield-audit-verify/export_verify.go:150-239 | An accepted bundle carries the digest of its stream, and 64 bytes that verify as a signature of it under a key it names: that of the first row with its key ID, or its own in the first format. |
| ExportTrust.AcceptedWasSigned | cmd/rosshield-audit-verify/export_verify.go:150-239 | With no forged signature and no collision, the stream of an accepted bundle is one that this key has signed, byte for byte. |
| ExportTrust.KeyMeans | cmd/rosshield-audit-verify/export_verify.go:326-354 | A key is read if and only if the text is the 64 hexadecimal digits of its 32 bytes, in either case. |
| ExportVerify.EpochMapUnique | cmd/rosshield-audit-verify/export_verify.go:326-354 | A signature line stands for one epoch map at most. |
| AuditHistory.SplitExact | cmd/rosshield-audit-verify/export_verify.go:285-318 | Splitting gives a stream and a line if and only if the bundle is that stream, empty or ending in a newline, then that one-line signature object, then any newlines. |
| AuditHistory.LooksMeans | cmd/rosshield-audit-verify/export_verify.go:285-318 | A signature line is one that starts, after blanks, with the three characters of an object whose first key starts with an underscore. |
| AuditHistory.ParseMeans | cmd/rosshield-audit-verify/export_verify.go:394-412 | A stream of lines parses if and only if each line that is not empty decodes; the entries are what these lines decode to, in order. |
| AuditHistory.LookupTotal | cmd/rosshield-audit-verify/export_verify.go:374-392 | Once the map is built the missing-in-map error cannot occur: lookup fails if and only if no row has the key ID. |
| AuditHistory.LookupFirst | cmd/rosshield-audit-verify/export_verify.go:381-391 | It gives the key of the first row with the key ID. |
| AuditHistory.EpochsGrow | cmd/rosshield-audit-verify/export_verify.go:517-552 | If other entries keep their predecessor's epoch, acceptance means that epochs never decrease and grow at each rotation. |
| AuditHistory.EpochAccounting | cmd/rosshield-audit-verify/export_verify.go:517-552 | Then rotation epochs are distinct and declared, and rotations are at most as many as declared epochs. |
| AuditHistory.OneHashSwitch | cmd/rosshield-audit-verify/export_verify.go:461-505 | With a positive transition and increasing numbers there is exactly one marker, at that number; entries up to it are checked with v1 and all later ones with v3. |
| AuditHistory.FinalHashPins | cmd/rosshield-audit-verify/export_verify.go:425-466 | Two accepted lists that end in one hash agree from the end on every covered field: the shorter is a suffix of the longer. |
| AuditHistory.OnlyCoveredMatters | cmd/rosshield-audit-verify/export_verify.go:425-466 | And nothing more is pinned: lists that agree on covered fields and stored hashes are accepted together. |
| AuditWriter.RunsKeepInv | internal/domain/audit/sqliterepo/repo.go:75-158 | Over every run of appends, transitions, rotations and restarts, for every tenant: the chain stays linked and hashed with the version it was written with, has one marker at most, its rotations carry epoch 1 or one of the table, and a rotation's epoch is above its predecessor's if and only if that is a rotation of the same start. |
| AuditWriter.AlwaysInv | internal/platform/storage/migrations/sqlite/0037_audit_chain_keys.sql:52 | So it is from the migrations on, whatever the system tenant is called. |
| AuditWriter.RowsOnlyAtHome | internal/domain/audit/keyrotation/rotator.go:282-325 | While the system tenant keeps its name, no other tenant ever has a key row. |
| AuditWriter.EntryRecords | internal/domain/audit/sqliterepo/repo.go:75-158 | The new entry says what the caller asked to record, with the next number, the epoch, and the hash of its predecessor or zeros. |
| AuditWriter.RecordMeans | internal/domain/audit/sqliterepo/repo.go:75-158 | A record adds one entry at the end of its tenant's chain and changes nothing else; it is hashed with v3 if and only if a transition number is cached and the chain has reached it. |
| AuditWriter.TransitionEnsured | internal/domain/audit/transition.go:51-94 | Afterwards the system tenant has a marker and its number is cached; where it had one nothing is added. |
| AuditWriter.RotationMeans | internal/domain/audit/keyrotation/rotator.go:282-345 | A rotation is recorded under the old epoch, and the new key is active under the next one and has a row; one that the table refuses changes nothing. |
| AuditWriter.RunsTell | internal/platform/storage/migrations/sqlite/0037_audit_chain_keys.sql:19-30 | Over every run no two rows of the key table have one epoch, and no tenant has two rows with one key ID. |
| AuditExport.ExportedChain | internal/domain/audit/sqliterepo/repo_hash_version.go:101-210 | The chain check accepts an export if and only if every entry with an epoch was written with the version the verifier takes. |
| AuditExport.ExportedMarker | internal/domain/audit/sqliterepo/repo_hash_version.go:199-210 | The marker check accepts a v3 export if and only if the announced number is the chain's own. |
| AuditExport.HomeMarkerFits | internal/domain/audit/sqliterepo/repo_hash_version.go:199-210 | For the system tenant itself it always is. |
| AuditExport.ExportedRotations | internal/domain/audit/sqliterepo/repo.go:398-488 | Under a table that can be entered, the epoch check accepts an export if and only if each rotation in the range is not the first of its start and directly follows another such rotation of that start, unless it is the first entry. |
| AuditExport.StreamParses | internal/domain/audit/sqliterepo/repo.go:315-345 | The exported stream decodes to the exported entries. |
| AuditExport.RangeMeans | internal/domain/audit/sqliterepo/repo.go:302-325 | Which entries a range selects: from the first number or 1, to the last number, or to the end where that is not positive or before the first. |
| AuditExport.LineMeans | internal/domain/audit/sqliterepo/repo_hash_version.go:101-210 | What the signature line says of the format, the range, the key, the table and the digest. |
| AuditExport.HonestExports | cmd/rosshield-audit-verify/export_verify.go:115-239 | For every tenant, range and format, after every run: the verifier accepts if and only if the hashes fit, the marker fits and, in the formats with epochs, the tenant is not the one with the migration's row, the signing key is in its table and the rotations fit. |
| AuditExport.DefaultExportsRefused | cmd/rosshield-audit-verify/export_verify.go:326-354 | From the migrations on, as long as the system tenant keeps its usual name, no export with epochs of any tenant is accepted. |
| AuditExport.OldFormatRefused | cmd/rosshield-audit-verify/export_verify.go:425-466 | An older format with an entry that carries an epoch and was written with v3 is refused. |
| AuditExport.NothingBehindSwitch | cmd/rosshield-audit-verify/export_verify.go:115-239 | Under the usual system tenant, an export that holds an entry recorded behind the transition is refused in every format. |
| AuditExport.LateExportRefused | cmd/rosshield-audit-verify/export_verify.go:421-466 | A v3 export that starts after the transition and holds such an entry is refused. |
| AuditExport.ForeignMarkerRefused | internal/domain/audit/sqliterepo/repo_hash_version.go:199-210 | Another tenant's v3 export that covers the cached number without its own marker there is refused. |
| AuditExport.RotationExportRefused | internal/domain/audit/keyrotation/rotator.go:282-345 | After any run, one ordinary entry and one rotation of the system tenant make the export of its whole chain be refused. |
| AuditExport.RestartRotationRefused | cmd/rosshield-server/bootstrap.go:1161 | Two rotations in a row with a restart between them do as well. |
| AuditExport.RenamedHomeAccepted | cmd/rosshield-audit-verify/export_verify.go:115-239 | With a system tenant of another name, an export with epochs that starts behind a rotation before the transition is accepted. |
| ExportLibrary.LibraryReady | internal/domain/audit/hash.go:65-206 | What these results ask of hashing, JSON and signatures can be had: one library and exporter meet it in every state in which no other key of the table has the signer's ID. |
| ExportLibrary.AcceptedExportExists | cmd/rosshield-audit-verify/export_verify.go:115-239 | With that library such an accepted export exists, for any names, keys and requests. |
| SegmentChain.ReadSegmentArchive | cmd/rosshield-audit-verify/rotation.go:462-515 | An archive reads if and only if both files are there, decode, and the count is right; of two files of one name the last counts. |
| SegmentChain.VerifyOneArchive | cmd/rosshield-audit-verify/rotation.go:316-442 | A segment is done if and only if it is sound alone and meets each expectation that is not empty. |
| SegmentChain.SoundMeans | cmd/rosshield-audit-verify/rotation.go:316-442 | A segment is sound alone if and only if the last files of the two names are a manifest and entries, with the right count, and the manifest's segment hash is that of the entries' stored hashes in a row, 32 bytes each. |
| SegmentChain.SegmentHashPins | internal/domain/audit/rotation/builder.go:40-48 | Without a collision, two sound segments with one segment hash carry the same stored hashes in the same order. |
| SegmentChain.VerifiedHashNotEmpty | cmd/rosshield-audit-verify/rotation.go:362-398 | A verified hash has 64 digits, so it is never the empty text that means skip. |
| SegmentChain.RunRotationChain | cmd/rosshield-audit-verify/rotation.go:218-310 | Exit code 0 if and only if every segment is sound and each later one names its predecessor's hash up to letter case; otherwise the number reported is the first that breaks this. |
| SegmentChain.ChainSplits | cmd/rosshield-audit-verify/rotation.go:270-309 | The chain passes from a to c if and only if it passes from a to b and from b to c, for any b between. |
| SegmentChain.DisjointParts | cmd/rosshield-audit-verify/rotation.go:270-309 | Two runs that share no segment leave the link between them unchecked: it is what the joint run checks beyond them. |
| AuditRuleScan.RuleScan | cmd/pack-tools/converter/cis_auditctl.go:137-177 | One regular-expression pass over a rule's text is one step on its items, and leaves a well-formed rule. |
| AuditRules.HitMeans | cmd/pack-tools/converter/cis_auditctl.go:137-147 | Where each of the four patterns matches, for any text. |
| AuditRulesAgree.GoNormalizes | cmd/pack-tools/converter/cis_auditctl.go:159-177 | The four passes over the text are one pass over the items: none touches what another wrote. |
| AuditRulesAgree.NormalForm | cmd/pack-tools/converter/cis_auditctl.go:159-177 | The text is that of the rule with every item in its normal form: a list's names in the order of the dictionary by character numbers, the long form of a key, fixed values of the two auid fields, and all else kept. |
| AuditRulesAgree.NormalizeTwice | cmd/pack-tools/converter/cis_auditctl.go:159-177 | Normalising twice equals normalising once. |
| AuditRulesAgree.TextOnce | cmd/pack-tools/converter/cis_auditctl.go:137-147 | Two well-formed rules are written alike if and only if they are equal. |
| AuditRulesAgree.NormalizesAlike | cmd/pack-tools/converter/cis_auditctl.go:159-177 | Two rules normalise to one text if and only if they differ at most in the order inside a syscall list, the form of the key and the two auid numbers. |
| AuditHostRules.HostNormalizes | cmd/pack-tools/converter/cis_auditctl.go:219-232 | What sed, tr, sort and paste make of a host rule's text: the last list, sorted without repeats in the host's order, overwrites the first. |
| AuditRuleMatch.NeededText | cmd/pack-tools/converter/cis_auditctl.go:236-243 | Filling in the user number changes the auid minimum and nothing else. |
| AuditRuleMatch.RulesAgree | cmd/pack-tools/converter/cis_auditctl.go:159-245 | The filled baseline rule equals the normalised host rule if and only if the host rule meets it item by item, for any lists, repeats and collation. |
| AuditRuleMatch.OrdinaryRulesAgree | cmd/pack-tools/converter/cis_auditctl.go:159-245 | With one list at most, no repeats and a byte order, that is: the same rule up to list order, key form, the spelling of the unset user, and the host's own user number. |
| AuditRuleMatch.RepeatsNeverFound | cmd/pack-tools/converter/cis_auditctl.go:159-245 | A baseline list with a repeated syscall matches no rule with one list. |
| AuditRuleMatch.SplitListsNeverFound | cmd/pack-tools/converter/cis_auditctl.go:219-232 | A rule whose last list does not name the syscalls of its first is not found where it is installed, word for word or in another spelling, whatever else it has. |
| AuditRuleMatch.ScriptExact | cmd/pack-tools/converter/cis_auditctl.go:191-245 | With its array literals as Go writes and bash reads them, for rules that survive this, the script passes if and only if every needed rule is met by a rule on disk, and every needed running rule by a loaded one. |
| DoubleQuotes.QuoteExact | cmd/pack-tools/converter/cis_auditctl.go:208-216 | A text written with %q is read back by bash as itself if and only if it is printable, has no backquote, and no dollar sign in front of the start of an expansion. |
| DoubleQuotes.QuoteTells | cmd/pack-tools/converter/cis_auditctl.go:208-216 | No two texts are written alike. |
| DoubleQuotes.LiteralsExact | cmd/pack-tools/converter/cis_auditctl.go:208-216 | An array of such literals holds the texts if and only if each of them survives. |
| AuditRuleLines.CollectAuditRuleLines | cmd/pack-tools/converter/cis_auditctl.go:251-277 | The loop, which rewrites the last collected rule, gives what the lines say. |
| AuditRuleLines.CollectMeans | cmd/pack-tools/converter/cis_auditctl.go:251-277 | Any list of lines is blank lines, wrapped rules and a rest that starts with neither; exactly these rules are collected, and none where the first line shown is no rule. |
| AuditRuleLines.RuleLineMeans | cmd/pack-tools/converter/cis_auditctl.go:64-67 | A rule's first line is a watch of a path, or one of two actions on one of five lists that ends a word. |
| AuditRuleLines.BlockMeans | cmd/pack-tools/converter/cis_auditctl.go:111-128 | A block is what stands between two marks, without one colon at its start. |
| AuditRuleLines.WrappedRulesCollected | cmd/pack-tools/converter/cis_auditctl.go:251-277 | Rules wrapped over any number of lines, after blank lines and before anything without a dash, are collected whole and in order. |
| AuditRuleLines.ExtractAuditctlExpectedRules | cmd/pack-tools/converter/cis_auditctl.go:111-135 | Both blocks are taken if and only if there are two marks and neither block is empty. |
| AuditRuleLines.NeededRules | cmd/pack-tools/converter/cis_auditctl.go:191-202 | The slices hold every extracted rule, normalised in place (in the form of AuditRulesAgree.NormalForm). |
| CommandAbsorb.AbsorbCISContinuation | cmd/pack-tools/converter/cis.go:628-661 | The loop gives the absorbed command. |
| CommandAbsorb.AbsorbMeaning | cmd/pack-tools/converter/cis.go:628-692 | That command is the first line joined with the first k shown lines, where k is the first number at which joining must halt: complete, at a stop line, at a limit, or at the end. |
| CommandAbsorb.CompleteMeans | cmd/pack-tools/converter/cis.go:663-692 | A command counts as complete if and only if its quotes of both kinds are even in number and its last character that is no blank is no backslash, bar, ampersand or dash. |
| CommandAbsorb.AbsorbedIsWhole | cmd/pack-tools/converter/cis.go:628-692 | A whole first line is left alone; otherwise, where a shown line is left that is no stop line and no limit is reached, the command is whole, and no shorter join is. |
| CommandAbsorb.JoinedMeans | cmd/pack-tools/converter/cis.go:650-655 | A line joins without a space where a quote is open, and with one elsewhere. |
| CommandAbsorb.SkippedLines | cmd/pack-tools/converter/cis.go:581 | Which lines are prose, in any letters' case. |
| CommandAbsorb.BlanksIrrelevant | cmd/pack-tools/converter/cis.go:637-644 | Blank lines and margins change nothing. |
| CommandAbsorb.CutThenAbsorb | cmd/pack-tools/converter/cis.go:628-692 | A complete command cut over at most 8 further lines, inside quotes or at a space after an unfinished start, is rebuilt character for character, whatever follows. |
| GrubCfg.SplitByPlaceholder | cmd/pack-tools/converter/cis_grub.go:81-98 | The loop over the shrinking line ends, and gives the pieces. |
| GrubCfg.Rebuilds | cmd/pack-tools/converter/cis_grub.go:81-98 | Pieces and removed placeholders, interleaved, rebuild the line. |
| GrubCfg.OneCut | cmd/pack-tools/converter/cis_grub.go:81-98 | There is no other way to cut a line at placeholders. |
| GrubCfg.ExtractGrubChecks | cmd/pack-tools/converter/cis_grub.go:34-77 | The checks of all commands in order, or none when a command has no line to expect, a line has no text, or there are fewer than two. |
| GrubCfg.AuditFilledPasses | cmd/pack-tools/converter/cis_grub.go:34-127 | For expected lines that survive their double quotes, output that shows, for each command, its line with anything in place of the placeholders always passes the emitted check. |
| GrubCfg.AuditCheckExact | cmd/pack-tools/converter/cis_grub.go:34-127 | For such lines the emitted check passes if and only if every command's output has all the text around the placeholders of its expected line. |
| CisReport.FirstScript | cmd/pack-tools/converter/cis.go:197-479 | The first pattern in order that gives a script decides; there is none only when every pattern gives none. |
| CisReport.ItemReasons | cmd/pack-tools/converter/cis.go:150-485 | An item is converted if and only if it is not held back as manual and has a script body or some pattern gives one; only a manual item's reason says Manual; the command is the wrapped body, or the wrapped script of the first pattern. |
| CisReport.ConvertCIS | cmd/pack-tools/converter/cis.go:99-143 | It fails if and only if the document is empty or repeats an ID; its counters and list are those of the items. |
| CisReport.NamedPlaces | cmd/pack-tools/converter/cis.go:119-127 | The items that count are those with an ID, all of them, in order. |
| CisReport.ListCISDegraded | cmd/pack-tools/converter/cis.go:494-527 | The same IDs and reasons in the same order, also where the conversion fails on a repeated ID. |
| CisReport.GenerateSelfTestSkeletons | cmd/pack-tools/converter/selftest.go:52-79 | The IDs of each class, sorted. |
| CisReport.ClassMeans | cmd/pack-tools/converter/selftest.go:84-115 | One class for each of the two marker rules, and one for every other rule. |
| CisReport.ClassesCover | cmd/pack-tools/converter/selftest.go:52-79 | Skeletons, degraded and custom checks together are as many as the checks. |
| CisReport.ReportsAgree | cmd/pack-tools/converter/selftest.go:52-115 | The counters add up to the checks, skeletons number exactly the converted ones, the rest are the report's degraded ones, and none is custom. |
| PackArchive.CollectPackFiles | cmd/pack-tools/converter/archive.go:173-204 | The map holds exactly the regular files but the two generated ones. |
| PackArchive.BuildArchive | cmd/pack-tools/converter/archive.go:74-166 | With maps iterated in arbitrary order, the result is the one determined by the files and the key; each error has its cause. |
| PackArchive.SortedEntries | cmd/pack-tools/converter/archive.go:91-102 | Sorting leaves one manifest, whatever order the map gave. |
| PackArchive.OrderIrrelevant | cmd/pack-tools/converter/archive.go:74-204 | Walking the directory in another order gives the same archive. |
| PackArchive.ManifestCovers | cmd/pack-tools/converter/archive.go:91-157 | The manifest lists every entry but itself and the signature, once each and in order, with hash and size. |
| PackArchive.PathsInOrder | cmd/pack-tools/converter/archive.go:91-157 | Manifest and archive list the paths in the order of the dictionary by character numbers, each once. |
| PackArchive.RebuildSame | cmd/pack-tools/converter/archive.go:74-204 | Unpacking an archive and building again with the same key gives the same archive. |
| PackLoader.ExtractTarGz | internal/domain/benchmark/archive.go:74-122 | It succeeds if and only if paths are safe and the limits hold; of two entries with one name the later counts. |
| PackLoader.SafeMeans | internal/domain/benchmark/archive.go:96-99 | A path is safe if and only if it does not start at the root and has no two dots in a row. |
| PackLoader.VerifyArchive | internal/domain/benchmark/archive.go:133-192 | It accepts if and only if the entries fit, the manifest is signed and decodes, every listed file matches, and every file is listed. |
| PackLoader.BuiltLoads | cmd/pack-tools/converter/archive.go:74-166 | The server accepts a built archive if and only if every path is safe and nothing is too large, and then holds exactly its files. |
| PackLoader.DottedNameRefused | internal/domain/benchmark/archive.go:96-99 | A built pack with a file named notes..md is refused. |
| PackLoader.ManifestPins | internal/domain/benchmark/archive.go:156-189 | Two accepted archives with one manifest hold the same files. |
| PackLoader.AcceptedIsBuilt | internal/domain/benchmark/archive.go:133-192 | Whatever packs a key has signed, an archive with no forged signature and no hash collision is accepted if and only if it fits and is one of them: its manifest and exactly its files, with a signature that verifies. |
| PackLibrary.TrustedHere | internal/domain/benchmark/archive.go:133-192 | What that asks of the library can be had: for any packs there is one under which it holds of every archive, honest or not. |
| PackLibrary.PackAccepted | cmd/pack-tools/converter/archive.go:74-166 | With that library each of the packs within the limits is accepted as built. |
| Backup.TarWriter.WalkAndArchive | cmd/rosshield-server/backup.go:299-332 | A missing directory adds nothing, a file in its place is an error, and otherwise the walk's entries are appended. |
| Backup.WriteArchiveEntries | cmd/rosshield-server/backup.go:275-295 | The snapshot, then the keys, then the evidence unless it is skipped. |
| Backup.WalkFinds | cmd/rosshield-server/backup.go:308-332 | The walk writes a file if and only if the tree has it there and it is neither below a transient directory nor named like a snapshot. |
| Backup.KeptMeans | cmd/rosshield-server/backup.go:308-332 | The names of the two transient directories and of the snapshot files. |
| Backup.WalkOnce | cmd/rosshield-server/backup.go:308-332 | No path is written twice. |
| Restore.FileSystem.ExtractArchive | cmd/rosshield-server/restore.go:169-232 | Disk, size, count and exit code are those of the entries, also when it stops half-way or the archive breaks off. |
| Restore.StaysInside | cmd/rosshield-server/restore.go:202-208 | For any archive at all, whole or broken off, no file outside the data directory is made or changed, and none is removed. |
| Restore.ExitMeaning | cmd/rosshield-server/restore.go:186-231 | Exit code 0 only when the archive is whole and every entry lies inside and is a file or directory; exit code 3 only at the first entry outside. |
| Restore.LastEntryCounts | cmd/rosshield-server/restore.go:186-257 | After a restore that succeeds a path has the bytes of the last entry that writes it, also over an older file; any other path is as it was. |
| Restore.RestoreShaped | cmd/rosshield-server/restore.go:210-257 | However it ends, a restore never puts a file in the place of a directory or below a file. |
| Restore.CleanSteps | cmd/rosshield-server/restore.go:202-203 | How dots and empty elements of a name are cleaned away. |
| Restore.LeadingOutRefused | cmd/rosshield-server/restore.go:202-208 | A name that leads to a sibling of the data directory, or above it, is refused with exit code 3. |
| Restore.BackupRestored | cmd/rosshield-server/restore.go:169-257 | A backup restored into an empty directory is exactly the snapshot and every kept file with its bytes; size and count are their totals. |
| Restore.BrokenRestored | cmd/rosshield-server/restore.go:186-257 | A backup that breaks off inside any file leaves the files before it whole, that file with what was copied, and nothing else; exit code 1, and the unfinished file is not counted. |
| Restore.RootRefusesAll | cmd/rosshield-server/restore.go:202-208 | With the root directory as data directory every entry is refused. |
| FleetSchedule.CronScheduler.Schedule | internal/platform/scheduler/cronsched/scheduler.go:57-73 | A job is added if and only if its ID is free and its spec is accepted; nothing else changes. |
| FleetSchedule.CronScheduler.Cancel | internal/platform/scheduler/cronsched/scheduler.go:113-120 | That job and no other is removed. |
| FleetSchedule.FleetScanScheduler.Reconcile | cmd/rosshield-server/fleet_scan_scheduler.go:105-126 | The fleet's job is dropped and, if the fleet can be read and wants one, made anew. |
| FleetSchedule.FleetScanScheduler.RegisterAll | cmd/rosshield-server/fleet_scan_scheduler.go:70-99 | Beside the server's own jobs, in any order of tenants and fleets, exactly the wanted fleets that are reached get their jobs, and the count is right. |
| FleetSchedule.Server.Apply | internal/api/handlers/fleet.go:205-361 | Each handler's change of the database and what it does to the table; a restart starts from an empty table. |
| FleetSchedule.RunKeepsTable | cmd/rosshield-server/fleet_scan_scheduler.go:70-156 | Over any run with failed reads and restarts, the table is entry for entry what the policies ask for, except for exactly the fleets lost so far; no job is ever stale. |
| FleetSchedule.LastChangeCounts | internal/api/handlers/fleet.go:205-361 | After any run the fleet's job follows the last change that concerns it: its schedule, pack and tenant, if they ask for scans and the fleet is not lost; none after a deletion. |
| FleetSchedule.FleetsStay | internal/api/handlers/fleet.go:205-361 | Over any run a fleet stays with its tenant, a deleted one is never changed, and one that no change concerns stays as it is. |
| FleetSchedule.SystemFleetLost | cmd/rosshield-server/fleet_scan_scheduler.go:246-250 | A wanted fleet of the system tenant has its job after a change and not after a restart. |
| FleetSchedule.IncrementalIsBatch | cmd/rosshield-server/fleet_scan_scheduler.go:70-156 | When all reads succeed nothing is lost, and a restart builds the same table if and only if it reaches every wanted fleet. |

## Left out

- ExportVerify.HashOk: SHA-256, JSON text and Ed25519 are parameters; that they do not collide or that decoding is faithful is assumed where a lemma says so.
- Shell.RunUtility: the shell fragment has only the utilities that the emitted pass_logic scripts use; whether a line matches a regular expression, and what
  grep does with options, are oracles.
- Shell.CutOff: how much printf writes at once is one number for a machine, and grep leaves at a moment that an oracle gives once a line it has read matches.
- CompilerCorrect.Meets: what a pattern takes out of an output, and which number a text stands for, are oracles; the source translates no condition that needs them.
- CompilerText.InFragment: condition IDs must be valid shell names, and commands must close what they open; a script outside the fragment has no
  meaning here.
- Shell.SubstsComplete: which texts bash reads as whole commands (`if true` is not one) is an oracle; bash before version 5.2, which reports such a
  command only when it comes to run it, is not modelled.
- AuditRuleMatch.ScriptExact: the audit-rule script is modelled by the reading of its array literals, by what its pipeline does to each line and by its
  count of missing rules, not through the shell fragment; a last line without a newline, and character ranges under unusual locales, are not modelled.
  Texts that do not survive double quotes are left to QuoteExact.
- AuditRules.RuleOk: rules are words with one space between them, and `-S`, `-k` and the two auid fields have well-formed arguments; any other word may stand anywhere.
- GrubCfg.EmittedCheck: the grub script is modelled by its searches and the reading of their literals, not through the shell fragment.
- GrubCfg.AuditFilledPasses: one way only, because the emitted check looks for the pieces anywhere in the output and in any order; AuditCheckExact is the exact condition.
- CommandAbsorb.AbsorbCISContinuation: length is counted in characters, which for ASCII text is the source's count of bytes.
- CommandAbsorb.CutThenAbsorb: it covers commands of more than one line; a complete first line is returned unchanged by AbsorbMeaning.
- CisReport.ConvertCISItem: the recognisers of the individual CIS patterns are parameters, tried in the source's order.
- PackArchive.BuildArchive: the gzip and tar bytes are functions of the entry list and not modelled; the pack key is read from pack.yaml by a parameter.
- PackLoader.BuiltLoads: path.Clean is a parameter that leaves the walk's own relative paths unchanged.
- Backup.TarWriter.WalkAndArchive: file modes, symbolic links, empty directories, and files that change during the walk are not modelled.
- Restore.StaysInside: symbolic links already below the data directory are not modelled, so a forced restore that writes through one is not seen.
- AuditWriter.RunsKeepInv: one server process at a time writes, one event after another; a leader that hands over and comes back, refused appends, and rotations that
  are too soon, aborted or without leadership, which change nothing, are left out. A start may be one of an older program, which records no epochs.
- AuditExport.HonestExports: exporters without a key repository write the first format, which is covered; a v3 export without one is not modelled.
- Restore.BackupRestored: the database snapshot is given bytes; how SQLite makes it is not part of this model.
- FleetSchedule.RunKeepsTable: changes are sequential; concurrent calls of Reconcile, cron ticks and the jobs' own work are not modelled.
- SegmentChain.VerifyOneArchive: fetching and cosign are oracles for each segment.
- Which line of an audit text is the command to start from (`extractCISLastShellLine`) is not modelled.
- Report signing, demo and admin seeding, the HTTP client, the API handlers other than the three for fleets, and the web interface are not part of this model.
