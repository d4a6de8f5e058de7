# Next Terminal: verified models of the server's stateful kernels

Next Terminal is a bastion host: users log in over the web or over SSH and reach servers, desktops and clusters through it. This project models the parts of its server where state, parsing or cryptographic framing make mistakes easy, and proves what those parts promise. Nothing here was executed; the results are those of the Dafny verifier.

One module stands for one component. Code that works by updating fields is a class whose methods are proved against a specification function on the class's state; what the component promises is then proved about that function, for every input and, where the component is a protocol, for every run. What an operation writes is stated again without its function: field by field, with what stays as it was, and for protocols with the runs that complete. Where the code does not meet a promise, the project says exactly when it does.

| module | what it models |
|---|---|
| `Wrappers`, `Text`, `Utf8` | results of calls, the string functions the code calls, UTF-8 (section 3 of RFC 3629) |
| `Sealing`, `Secrets` | padding, chaining and base64 of secret columns; credentials, assets and the command that changes the encryption key |
| `Backup`, `BackupGraph`, `BackupExport` | import and export of a backup and what they do to references and secrets |
| `Guacamole`, `GuacdTunnel`, `Handshake` | the instruction encoder and parser, reading from guacd and forwarding, opening a connection |
| `Terminal` | the web terminal: reader, buffer, ticker, browser, recorder, observers |
| `SessionClose`, `SessionReview` | closing a session from several places at once; marking all sessions as reviewed |
| `Signing`, `Authorisation` | keys of grants; the hashed lookup against the relational scan |
| `IpGroups`, `AddressLists`, `AccessRules` | address groups; lists of them; rule lists by priority in four scans |
| `Gateways`, `Jobs` | the SSH connection shared by tunnels; job rows against cron entries |
| `LoginState`, `Lockout` | tokens, login logs and the online flag; the failure counter |
| `Parameters`, `DiskFree` | parameters of a remote session; reading the output of df |

Conventions. A Go string is a sequence of bytes or of code points as each module says. `Outcome` has a value, an error and a run-time panic. A database table is a map by primary key, a transaction is computed and then committed, the clock is a number, and iteration over a Go map or a query without an order takes any order. Fresh ids come from a supply without repetitions. gorm's `Updates` writes only fields that are not zero.

Where the code and its own comments differ, the code is modelled: the comment on a policy's address list says that `0.0.0.0` matches everything, and the code compares it like any address (`server/model/login_policy.go:6`, `server/service/login_policy.go:145-147`, `IpGroups.ZerosMatchThemselves`); the rule manager's comment says that a smaller number is a higher priority, and the web server's scan over it lets the largest number decide (`server/global/security/security.go:41`, `server/app/middleware/tcpwall.go:27-58`).

What the code does not promise and the proofs show, each with its exact condition:

- an asset column that the old key opens to the empty string is not re-keyed, whatever the two keys are (`Secrets.RekeyField`, `Secrets.RekeyExactly`); the services never write one, so no reachable database has one for the key in force (`Secrets.RunKeepsSealed`);
- an import drops the users and groups whose names are taken, the built-in administrator included, and with them their references and no others (`BackupExport.RoundTripKeepsGraph`);
- the instruction parser loses commas, dots and a trailing semicolon (`Guacamole.ParseExactly`), and the encoder's length prefix counts bytes where the protocol counts code points (`Guacamole.DecodeForm`);
- a grant to a user and a group at once is listed but not found (`Authorisation.AgreementExactly`, `Authorisation.MixedGrantNotFound`);
- the SSH server takes a comma-separated address text for one group: a list is ignored, or read as one range (`AccessRules.ServersReadExactly`);
- opening a tunnel under an id that is open leaks its listener (`Gateways.OpenLeaksExactly`);
- job requests that do not fit the job's status, and imports that fail after scheduling a job, part rows from cron entries (`Jobs.RunExactly`, `Jobs.ImportExactly`), at start-up an empty job table yields a running row without an entry (`Jobs.JobService.InitJob`), and numbers left over from the last process are given again (`Jobs.StopAfterRestart`);
- an error while waiting for guacd's last instruction leaves the connection open (`Handshake.Client.NewTunnel`);
- a user can be created, updated or imported as online without any login, and a user renamed while logged in keeps tokens under the old name (`LoginState.CreateExactly`, `LoginState.ChangeExactly`, `LoginState.ImportExactly`); switching LDAP off deletes users whose tokens the server goes on accepting (`LoginState.DropExactly`, `LoginState.DroppedStaysLoggedIn`);
- addresses and names whose texts join to the same key share a failure counter (`Lockout.SharedKeyExactly`);
- a backup freezes global properties into each asset's attributes, and a drive goes on naming its storage by the old id (`Parameters.ImportThenFind`, `Parameters.RoundTripExactly`, `Parameters.DriveKeepsOldStorage`);
- the list read from df is wrong as soon as a device with readable numbers is mounted at a point whose name holds a space, and without a device at such a point it is right (`DiskFree.OutputExactly`); after a wrapped device line without its second line the next row that is wrapped or is a whole device row may be misread (`DiskFree.OrphanExactly`, `DiskFree.OrphanListExactly`).

## Model

| member | source | states |
|---|---|---|
| `Sealing.UnpadPad` | server/utils/utils.go:218-228 | unpadding undoes PKCS padding for every byte string, block multiples included |
| `Sealing.CbcRoundTrip` | server/utils/utils.go:231-257 | CBC decryption undoes CBC encryption for every permutation of the blocks, key, initialisation vector and number of blocks |
| `Sealing.DecodeEncode` | server/service/asset.go:51-114 | base64 decoding undoes encoding, and encoding is never empty or a dash for data that is not empty |
| `Sealing.OpenSeal` | server/utils/utils.go:231-257 | sealing with a key of legal length succeeds, opening returns the plaintext, and the sealed text is neither `""` nor `"-"` |
| `Sealing.AesIsVault` | server/utils/utils.go:231-257 | for every block cipher the program's pair of functions has the properties that the whole-database results rely on; other key lengths are errors |
| `Sealing.PadExactly` | server/utils/utils.go:218-222 | between one and sixteen bytes are added, each of which is their number |
| `Sealing.SealExactly` | server/utils/utils.go:231-243 | each block of a sealed value is the cipher of the padded plaintext's block xored with the block before, the first with the first block of the key |
| `Sealing.EncodeExamples` | server/service/asset.go:90-114 | the base64 texts of the examples in section 10 of RFC 4648 |
| `Secrets.Item.Encrypt` | server/service/asset.go:90-114 | the item's three columns become the sealed ones and the flag is set; the asset service passes over the empty string, the credential service does not |
| `Secrets.Item.Decrypt` | server/service/asset.go:51-88 | the item's columns become what a reader with the key sees, sentinels and unsealed rows as they are |
| `Secrets.Database.ChangeEncryptionKey` | server/service/cli.go:59-100 | either no row changes, or every row of both tables is its re-keyed form; it fails exactly when some row cannot be opened or sealed |
| `Secrets.Database.Create` | server/service/credential.go:114-120 | the row stored is the sealed item; what that row reads as is `Secrets.CreateReadsBack` |
| `Secrets.Database.UpdateById` | server/repository/asset.go:131-134 | the sealed item is merged into the stored row field by field |
| `Secrets.Database.UpdateAsset` | server/service/asset.go:225-287 | an asset's secrets that its account type does not use are blanked before the row is sealed and merged |
| `Secrets.TypeChangeClears` | server/service/asset.go:235-259 | after a change of the account type no secret of the other types is left in the row, whatever it held |
| `Secrets.TypeChangeKeeps` | server/service/asset.go:235-287 | the secrets that the account type uses read as given, and no other row changes |
| `Secrets.CreateReadsBack` | server/service/credential.go:114-120 | after a create each of the three columns opens under the key to the text that was given, the flag is set, and no other row of either table changes |
| `Secrets.UpdateReadsBack` | server/repository/asset.go:131-134 | after an update each column reads as given, an empty one of an asset as before, and no other row changes |
| `Secrets.Database.EncryptAll` | server/service/asset.go:31-49 | at start every row that is not sealed is sealed and the others are left alone |
| `Secrets.RekeyTable` | server/service/cli.go:59-100 | the loop over one table returns the map of re-keyed rows, or fails when one row does |
| `Secrets.RekeyField` | server/service/cli.go:59-100 | for one column and any two keys: the new key reads what the old one read if and only if the column is not a sealed empty string of an asset, or its old bytes open to the empty string under the new key as well |
| `Secrets.RekeyRow` | server/service/cli.go:59-100 | a row can be re-keyed if and only if the old key opens it, and then its plaintexts are kept if and only if no column is such a one |
| `Secrets.RekeyExactly` | server/service/cli.go:59-100 | for any database and any two keys: the key can be changed if and only if the old one opens every row; credentials then read as before, and assets do if and only if no column is such a one |
| `Secrets.RekeyGoodRow` | server/service/cli.go:59-100 | a row the services wrote under the old key is re-keyed to one they could have written under the new key, with the same plaintexts |
| `Secrets.RekeyPreservesPlaintexts` | server/service/cli.go:59-100 | on a database written under the old key, changing the key succeeds and every credential and asset column reads under the new key as it read under the old one |
| `Secrets.RunKeepsSealed` | server/service/asset.go:176-287 | after every history of creates, updates, deletes and key changes each column is one that the services could have written under the key in force |
| `Secrets.RunReadsBack` | server/service/asset.go:176-287 | sealing is invisible: after every history of creates, updates, deletes and key changes the database reads, under the key in force, as a database of plain text after the same history without keys |
| `Secrets.EncryptAllSeals` | server/service/credential.go:18-36 | sealing at start makes such a database out of a mixed one and changes no plaintext |
| `Backup.ImportUsers` | server/service/backup.go:126-150 | users with a taken name are skipped; the others stand in the table under distinct fresh ids that the id map names |
| `Backup.ImportGroups` | server/service/backup.go:152-176 | groups likewise, with one membership for each mapped member; a member listed twice fails |
| `Backup.ImportStorages` | server/service/backup.go:178-188 | storages get fresh ids and their owners are mapped |
| `Backup.ImportGateways` | server/service/backup.go:221-232 | gateways get fresh ids that the id map names |
| `Backup.ImportCredentials` | server/service/backup.go:245-257 | credentials get fresh ids, mapped owners and sealed secrets |
| `Backup.ImportAssets` | server/service/backup.go:259-287 | owner, credential and gateway are rewritten through the id maps, the two sentinels stay, and the secrets are sealed |
| `Backup.ImportJobs` | server/service/backup.go:289-309 | the status-check job is skipped, each asset id in the comma list is mapped, and a running job that cannot be scheduled fails the import |
| `Backup.Database.Import` | server/service/backup.go:126-312 | the import fails, changing nothing, if and only if mapped members collide or a running job is refused; otherwise every table is its old rows and the rewritten rows of the file |
| `BackupGraph.RenameInjective` | server/service/backup.go:126-312 | the renaming of references is one to one on those whose ends were imported |
| `BackupGraph.ImportEmbedsGraph` | server/service/backup.go:126-312 | the references that an import adds are exactly the file's resolving references under an injective renaming, dangling and clashing ones included in the statement |
| `BackupGraph.ClosedResolves` | server/service/backup.go:126-312 | without name clashes and dangling references every reference of the file resolves |
| `BackupGraph.ImportedSecrets` | server/service/backup.go:245-287 | each imported secret opens under the importing server's key to the plaintext in the file |
| `BackupGraph.ImportedContents` | server/service/backup.go:126-312 | field by field what an import writes: a job's function, flag, schedule and list of assets, a gateway's address, the names, and every reference by the new id or empty where it was not imported; old rows stay and no others are added |
| `BackupGraph.MembersCollide` | server/service/backup.go:152-176 | mapped members are distinct if and only if the members are and at most one of them was not imported |
| `BackupExport.Export` | server/service/backup.go:28-124 | the file lists every row once with its references and opened secrets; it fails exactly when some secret does not open |
| `BackupExport.ExportKeepsEdges` | server/service/backup.go:28-124 | of the references in a file, those that resolve are the resolving ones of the exported database, dangling and clashing ones being allowed |
| `BackupExport.ResolvesCarried` | server/service/backup.go:126-176 | a reference resolves if and only if the row it leads to exists and neither end is a user or a group whose name the other database has |
| `BackupExport.RoundTripEdges` | server/service/backup.go:28-312 | export here and import there, even from a server on which names repeat: the other server gains exactly this one's resolving references, one for one under the renaming |
| `BackupExport.RoundTripKeepsGraph` | server/service/backup.go:28-312 | export here and import there, whatever names the two share and whatever references dangle: the other server gains exactly this one's carried references, one for one under the renaming |
| `BackupExport.NothingLost` | server/service/backup.go:28-312 | between servers that share no name every reference that does not dangle is carried |
| `BackupExport.RoundTripKeepsSecrets` | server/service/backup.go:80-109 | every secret reads there, under that server's key, as it read here |
| `BackupExport.RoundTripKeepsRows` | server/service/backup.go:28-312 | from export to import every job but the status check keeps function, flag and schedule, every gateway its address, and users and groups go across with their names exactly when these are free |
| `Utf8.DecodeEncode` | server/api/term_handler.go:56-92 | decoding recovers each encoded rune and its width, whatever follows |
| `Utf8.EncodeDecode` | server/api/term_handler.go:56-92 | encoding a decoded rune gives back the bytes it was read from if and only if they begin with the encoding of a rune, U+FFFD included; nothing else reads as U+FFFD in one byte |
| `Terminal.MessageRoundTrip` | server/dto/ssh.go:10-34 | a message survives the wire if and only if its type is a single digit |
| `Terminal.EchoExactly` | server/api/term_handler.go:56-92 | for every byte string, what the terminal writes equals what it read if and only if no decoded rune is the replacement character |
| `Terminal.ShownExactly` | server/api/term_handler.go:78-92 | what is shown is rune by rune its own bytes, or an at sign for U+FFFD |
| `Terminal.TermHandler.ReadFormTunnel` | server/api/term_handler.go:56-71 | one turn of the reading goroutine is the machine's reader step |
| `Terminal.TermHandler.WriteRune` | server/api/term_handler.go:78-92 | taking a rune appends its bytes, or `@`, to the buffer |
| `Terminal.TermHandler.WriteTick` | server/api/term_handler.go:93-103 | a tick sends the buffer to the browser, the recorder and the observers and empties it; an error of the browser ends the loop |
| `Terminal.TermHandler.SendObData` | server/api/term_handler.go:130-137 | each observer whose write succeeds gets the same frame |
| `Terminal.RunConserves` | server/api/term_handler.go:56-137 | after every interleaving: contents sent, buffer and rune in flight together are the encoding of the runes read; recorder and observers hold the browser's chunks unless a write to them failed |
| `Terminal.SentIsPrefix` | server/api/term_handler.go:56-103 | what the browser got is a prefix of the encoded input, of the input itself when it is valid and free of U+FFFD, and all of it at the end |
| `Terminal.AllIsShown` | server/api/term_handler.go:56-103 | for every input there are turns after which all of it has been shown |
| `Terminal.ObserverSeesAll` | server/api/term_handler.go:130-137 | an observer no write to whom fails is sent every frame since it joined |
| `Terminal.RecordingHoldsAll` | server/api/term_handler.go:93-103 | a recording no write to which fails holds every message |
| `Guacamole.Instruction.String` | server/common/guacamole/guacd.go:115-126 | the form is built once from opcode and arguments and returned again afterwards |
| `Guacamole.DecodeForm` | server/common/guacamole/guacd.go:115-126 | a decoder that goes by the lengths recovers an encoded instruction, with any text after it, if and only if all elements are ASCII; delimiters may occur in them |
| `Guacamole.DecodeStreamOf` | server/common/guacamole/guacd.go:115-126 | such a decoder recovers a stream of instructions if and only if all elements of all of them are ASCII |
| `Guacamole.ParseExactly` | server/common/guacamole/guacd.go:115-140 | the split-based parser returns what was encoded if and only if no element has a comma or a dot and the last does not end in a semicolon |
| `Guacamole.ParseAgreesWithDecoder` | server/common/guacamole/guacd.go:128-140 | on such ASCII instructions the parser and the decoder agree |
| `GuacdTunnel.Tunnel.Read` | server/common/guacamole/guacd.go:264-281 | one read consumes the bytes up to the next semicolon and returns them, glued or dropped as the audio case says; without a semicolon it fails |
| `GuacdTunnel.Forward` | server/api/guacamole_handler.go:27-49 | the browser is sent the messages of exactly the chunks read, but for the one whose write failed; the loop ends by cancellation after all its turns, by a failing write, or at the end of the stream with the error and the disconnect instruction |
| `GuacdTunnel.FarewellUnderstood` | server/common/guacamole/guacd.go:301-308 | the error and the disconnect instruction are decodable after any ASCII instructions |
| `GuacdTunnel.ReframingConservesExactly` | server/common/guacamole/guacd.go:264-281 | for every byte stream the forwarded bytes equal the bytes read if and only if each audio head is followed by its 44100 Hz tail, that tail stands nowhere else and no 22050 Hz tail occurs |
| `GuacdTunnel.MessagesAreInstructions` | server/common/guacamole/guacd.go:264-281 | for streams of instructions without a semicolon, but for that mimetype, the messages are the instructions one by one |
| `Handshake.Client.Write` | server/common/guacamole/guacd.go:236-254 | a successful write appends the instruction's form to what was sent |
| `Handshake.Client.ExpectOpcode` | server/common/guacamole/guacd.go:256-294 | the arguments of the next instruction are returned if it has the opcode; its bytes are consumed either way |
| `Handshake.Client.AnswerAll` | server/common/guacamole/guacd.go:204-213 | one value for each parameter asked for, in order: the version, the configured value or nothing |
| `Handshake.Client.NewTunnel` | server/common/guacamole/guacd.go:151-234 | the handshake succeeds if and only if all writes do and guacd sends both expected instructions, the second with an id; then the client has selected its connection or protocol, sent width, height and resolution, its formats and time zone, and for each parameter asked for, in order, the version or the configured value; when the last instruction is not the expected one, and only then, an error leaves the connection open |
| `Handshake.ScriptDecodes` | server/common/guacamole/guacd.go:151-234 | a length-directed decoder reads the seven instructions back, the answers in the order of the parameters, if and only if the configured values are ASCII |
| `Handshake.AsksVersionExactly` | server/common/guacamole/guacd.go:209 | a name asks for the version if and only if it holds that word somewhere |
| `Handshake.ServerUnderstood` | server/common/guacamole/guacd.go:256-294 | a server that asks for parameters and then gives an id is understood, and the bytes after that are left for the session |
| `SessionClose.SessionService.CloseSessionById` | server/service/session.go:108-126 | undisturbed: closing frames with code and reason to the session and each observer, the id out of the registry, all connections closed; a connecting row is deleted, a disconnected one kept, any other is disconnected with its secrets cleared and with the code and reason, as far as they are not empty |
| `SessionClose.SessionService.Del` | server/global/session/session.go:85-94 | deleting an id closes its connection and those of its observers and nothing else |
| `SessionClose.SessionService.ClearObservers` | server/global/session/session.go:96-104 | clearing closes and removes every observer |
| `SessionClose.CloseProtocol` | server/service/session.go:108-177 | over every interleaving of closers, observers and status changes: once a close is complete the id is unregistered, the row absent or disconnected, the connection and all observers present at the first effective close closed, and frames were written once |
| `SessionClose.RecordedOnce` | server/service/session.go:141-177 | a recorded code and reason are never overwritten |
| `SessionClose.CloseRecords` | server/service/session.go:141-177 | in every interleaving a row that was disconnected has its secrets cleared and carries the code and reason of one of the closes that were begun |
| `SessionClose.CloseCompletes` | server/service/session.go:108-126 | at any point of any run a closer's own steps lead to the end of the close |
| `SessionReview.ReviewedAll` | server/service/session.go:80-104 | the batches concatenate to the id list, in order and without loss at any length; the first has at most 101 ids and the others at most 100, and a failing update ends after whole batches |
| `Signing.PairInjectiveUuid` | server/utils/utils.go:127-132 | sorting and concatenating two UUIDs determines the unordered pair |
| `Signing.PairInjectiveSuper` | server/utils/utils.go:127-132 | so it does with the super administrator's fixed id |
| `Signing.SortExactly` | server/utils/utils.go:127-132 | the ids are hashed in order, each once, however they are listed |
| `Authorisation.UserKeyMeans` | server/service/authorised.go:106-116 | a row has the key that is looked up for a user and an asset if and only if it is that direct grant |
| `Authorisation.GroupKeyMeans` | server/service/authorised.go:117-127 | and likewise for a group |
| `Authorisation.Services.AuthorisedAssets` | server/service/authorised.go:22-48 | rows under the new signatures are replaced and each asset is granted to the user and group with the strategy given; a repeated one changes nothing |
| `Authorisation.Services.AuthorisedUsers` | server/service/authorised.go:50-76 | the same with the users of the request |
| `Authorisation.Services.AuthorisedUserGroups` | server/service/authorised.go:78-104 | the same with the groups of the request |
| `Authorisation.Services.GetAuthorised` | server/service/authorised.go:106-130 | a row is returned if and only if a direct or a group grant exists, and a direct one comes first |
| `Authorisation.Services.GetAssetIdListByUserId` | server/service/worker.go:53-76 | the set of assets granted to the user or to one of the user's groups |
| `Authorisation.Services.CheckPermission` | server/service/worker.go:78-84 | whether the asset is in that list |
| `Authorisation.Services.DeleteGroup` | server/service/user_group.go:22-39 | a group goes with its memberships and grants |
| `Authorisation.Services.SetMembers` | server/service/user_group.go:78-121 | a group's memberships become the given ones; a repeated member fails and changes nothing |
| `Authorisation.AgreementExactly` | server/service/worker.go:53-84 | an asset is listed for a user if and only if the hashed lookup finds a grant or some row grants it to a user and a group at once |
| `Authorisation.MixedGrantNotFound` | server/service/authorised.go:22-48 | after such a grant the asset is listed and the lookup does not find it |
| `Authorisation.FoundExactly` | server/service/authorised.go:106-130 | the lookup by hashed keys finds an asset if and only if it is granted to the user or to one of the user's groups |
| `Authorisation.GrantExactly` | server/service/authorised.go:22-104 | after a grant its rows stand in the table, the others as before, and the lookup finds what it found and what was granted |
| `Authorisation.RevokeExactly` | server/api/authorised.go:45-49 | after a revocation the other rows are as before and the lookup finds what they grant, no more and no less |
| `Authorisation.SetMembersExactly` | server/service/user_group.go:78-121 | after new members are set a user is authorised if and only if directly, through another group, or as one of the listed users through this one |
| `Authorisation.DeleteGroupExactly` | server/service/user_group.go:22-39 | after a group is deleted a user is authorised if and only if directly or through another group |
| `Authorisation.DeleteUserExactly` | server/service/user.go:294-339 | a deleted user is authorised for nothing and everybody else as before |
| `Authorisation.DeleteAssetExactly` | server/service/asset.go:206-224 | a deleted asset is granted to nobody and all others as before |
| `Authorisation.ReachableAgreement` | server/service/authorised.go:22-130 | in every state reached by grants to one side, revocations, cascading deletes and membership changes the two agree |
| `IpGroups.IpToIntMonotone` | server/utils/utils.go:172-192 | on dotted octets the number orders addresses as the octets do, and differs for different addresses |
| `IpGroups.MaskIsBitwiseAnd` | server/service/login_policy.go:123-131 | clearing the free bits of an octet is the bitwise "and" with a mask of leading ones, for each of the nine masks |
| `IpGroups.ZerosMatchThemselves` | server/service/login_policy.go:145-147 | the text 0.0.0.0 matches that client address and no other |
| `AddressLists.SplitReading` | server/app/middleware/tcpwall.go:28-55 | split at its commas, a list of addresses, ranges and blocks accepts whom one of its items accepts |
| `AddressLists.WholeReading` | server/sshd/sshd.go:64-92 | taken for one group, such a list of two items or more accepts nobody if it holds a block or no range; else it is one range from its first address to the high end of its first range, and an end next to a comma loses its last octet |
| `IpGroups.ContainsRange` | server/service/login_policy.go:123-143 | masking (section 3.1 of RFC 4632) accepts exactly the addresses between the block's first and last |
| `IpGroups.CidrEqualsRange` | server/service/login_policy.go:123-143 | a block and the range from its first to its last address, as texts, accept the same clients |
| `AccessRules.Manager.LoadData` | server/global/security/security.go:31-46 | the cached list is the stored rules, each once, by ascending number, in whatever order they are visited |
| `AccessRules.Manager.Add` | server/global/security/security.go:52-55 | a rule is stored under its id and the list is rebuilt |
| `AccessRules.Manager.Del` | server/global/security/security.go:57-60 | a rule is removed and the list is rebuilt |
| `AccessRules.Manager.Clear` | server/global/security/security.go:24-29 | the store is emptied and the list stays |
| `AccessRules.Manager.ReloadAccessSecurity` | server/service/security.go:14-34 | the store becomes the given rules by id, unless there are none |
| `AccessRules.ByIdExactly` | server/service/security.go:14-34 | rows with different ids are all stored, each under its id |
| `AccessRules.Manager.ConnCallback` | server/sshd/sshd.go:56-103 | the first match over the list gives the verdict of an effective rule with the smallest number, and lets through when there is none |
| `AccessRules.Manager.TcpWall` | server/app/middleware/tcpwall.go:15-72 | the last match over the same list gives the verdict of a matching rule with the largest number |
| `AccessRules.CheckClientIp` | server/service/login_policy.go:114-158 | over the descending list an enabled policy that matches and has the smallest number decides, and without one the login goes on |
| `AccessRules.CheckWeekDay` | server/service/login_policy.go:160-203 | the same for the time of day; it panics if and only if an enabled policy has a malformed range for today |
| `AccessRules.PeriodExactly` | server/service/login_policy.go:172-199 | a period written as ranges of times matches if and only if it is for the day and the time, in minutes, lies within one of them, where midnight to midnight is the whole day |
| `AccessRules.DecidedUnique` | server/sshd/sshd.go:64-102 | with distinct numbers the verdict depends on the set of rules only, so the scans agree with one another and on every order of insertion |
| `AccessRules.LastIsFirstReversed` | server/service/login_policy.go:114-158 | the last match of a list is the first match of the reversed list |
| `AccessRules.ServersAgreeExactly` | server/app/middleware/tcpwall.go:27-58 | over one store of allow and reject rules without commas and with distinct numbers, the results of the two servers' scans agree on a client if and only if its lowest and its highest matching rule say the same |
| `AccessRules.ServersLetThrough` | server/sshd/sshd.go:56-103 | both let a client through that no rule matches |
| `AccessRules.ServersDisagree` | server/app/middleware/tcpwall.go:27-58 | for every address a rejection with a smaller and a permission with a larger number make the SSH server reject and the web server let through |
| `AccessRules.ServersReadAlike` | server/sshd/sshd.go:64-102 | without a comma in its address text both servers read a rule alike if and only if it is an allow or reject rule or does not match |
| `AccessRules.PlainListExactly` | server/sshd/sshd.go:64-92 | the two servers read a list of single addresses alike if and only if the client is not in it |
| `AccessRules.BlockListExactly` | server/sshd/sshd.go:64-92 | a list with a block never matches in the SSH server, and the two read it alike if and only if no item accepts the client |
| `AccessRules.ServersReadExactly` | server/sshd/sshd.go:64-92 | the two read any list of addresses, ranges and blocks alike for a client if and only if the single reading of the whole text and the items say the same |
| `Gateways.Gateway.OpenSshTunnel` | server/global/gateway/gateway.go:33-81 | a listener is exposed if and only if the connection stands or can be dialled and listening succeeds; then the id has a tunnel with it to the address over the live client, a missing client is dialled once, and all else is as before; a failed dialling is marked |
| `Gateways.Gateway.CloseSshTunnel` | server/global/gateway/gateway.go:83-99 | the tunnel and its listener go and no other; with no tunnel left the client is closed and the gateway disconnected |
| `Gateways.Gateway.CloseAll` | server/global/gateway/gateway.go:101-105 | a gateway with tunnels ends with nothing open; one without tunnels is left as it is |
| `Gateways.OpenLeaksExactly` | server/global/gateway/gateway.go:66-80 | opening leaves a listener without a tunnel if and only if it succeeds under an id that has one |
| `Gateways.BracketDiscipline` | server/global/gateway/gateway.go:33-105 | over every interleaving of open-close brackets and closings of the gateway: live listeners are the tunnels', tunnels share one live client, and with all brackets finished nothing is open |
| `Gateways.BracketOpens` | server/global/gateway/gateway.go:33-81 | a bracket begins with its tunnel if dialling and listening succeed, and touches no other |
| `Gateways.TunnelStaysUp` | server/global/gateway/gateway.go:33-105 | whatever other callers do, an open tunnel keeps its listener and its client |
| `Jobs.JobService.ChangeStatusById` | server/service/job.go:21-46 | starting adds an entry and records its number; stopping removes the recorded entry and leaves the number; errors change nothing |
| `Jobs.JobService.CreateJob` | server/service/job.go:112-127 | a running job is scheduled before it is inserted |
| `Jobs.JobService.DeleteJobById` | server/service/job.go:129-140 | a running job is stopped before it is deleted |
| `Jobs.JobService.UpdateById` | server/service/job.go:142-161 | the row is merged, and a job that was running is stopped and started again |
| `Jobs.JobService.ImportJobs` | server/service/backup.go:289-309 | the jobs of a file are created one by one, checks of assets passed over; when one is refused the rows are as before and the entries of those before it stay |
| `Jobs.JobService.InitJob` | server/service/job.go:83-110 | after start-up rows and entries agree if and only if the table was not empty and every running job could be scheduled; the entries are then numbered from one to the number of running jobs |
| `Jobs.StartExactly` | server/service/job.go:26-39 | starting keeps the bijection of running rows and entries if and only if the job is stopped or cannot be scheduled |
| `Jobs.StopExactly` | server/service/job.go:40-45 | stopping keeps it if and only if the job is running or its left-over number is no live entry's |
| `Jobs.CreateExactly` | server/service/job.go:112-127 | creating keeps it if and only if no job is scheduled under a taken id |
| `Jobs.DeleteAgrees` | server/service/job.go:129-140 | deleting always keeps it and leaves no entry of the job |
| `Jobs.UpdateExactly` | server/service/job.go:142-161 | updating keeps it, a rejected cron text included, if and only if a running job's number is not changed and a stopped one is not marked as running |
| `Jobs.ImportExactly` | server/service/backup.go:289-309 | importing jobs keeps it if and only if every job is accepted or none up to the first one refused is scheduled |
| `Jobs.RunExactly` | server/service/job.go:21-161 | along a run, imports included, the bijection holds throughout if and only if each request fits the status its job has at that moment and each import is accepted or schedules nothing |
| `Jobs.StopAfterRestart` | server/service/job.go:40-45 | in that state stopping a stopped job parts rows from entries if and only if its number from the last process is no larger than the number of running jobs |
| `Jobs.StopUnschedules` | server/service/job.go:40-45 | it is the running job with that number that loses its entry |
| `Jobs.StartWrites` | server/service/job.go:26-39 | a started job is marked as running and has an entry of its own that runs it; other rows and entries stay |
| `Jobs.StopWrites` | server/service/job.go:40-45 | a stopped job is marked as stopped and loses the entry with its number; other rows stay |
| `Jobs.CreateWrites` | server/service/job.go:112-127 | a new job is stored as it was given, and runs if it is to |
| `Jobs.UpdateWrites` | server/service/job.go:142-161 | an updated job has each field that was given and otherwise what it had; a running one then runs as its row says, or is stopped if it cannot be scheduled |
| `Jobs.DeleteWrites` | server/service/job.go:129-140 | a deleted job's row goes, and no other |
| `Jobs.ImportWrites` | server/service/backup.go:289-309 | an accepted import stores every job of the file but the status checks, as the file has it, and nothing else; any other leaves the table as it is |
| `LoginState.UserService.LogoutByToken` | server/service/user.go:118-139 | the log is marked as ended and its user goes offline when no alive log is left; a token without a log is an error |
| `LoginState.UserService.OnEvicted` | server/service/user.go:174-182 | a dropped token ends its login, unless it has the other kind's prefix |
| `LoginState.UserService.LoginSuccess` | server/api/account.go:128-154 | the token is cached with the lifetime that remembering calls for and the user is online |
| `LoginState.UserService.SaveLoginLog` | server/service/user.go:359-380 | a log is added, alive if the login succeeded |
| `LoginState.UserService.LoginEndpoint` | server/api/account.go:88-96 | a completed login of an existing user stores the token, the online flag and the log |
| `LoginState.UserService.Auth` | server/app/middleware/auth.go:56-71 | a token is accepted if and only if it is cached and not expired, and then its lifetime is renewed |
| `LoginState.UserService.Logout` | server/service/user.go:114-116 | a cached token is dropped and its login ended; any other token changes nothing |
| `LoginState.UserService.DeleteExpired` | server/app/cache.go:8-10 | the janitor drops exactly the expired tokens, and their logins end |
| `LoginState.UserService.DeleteOutTimeLoginLog` | server/task/ticker.go:257-270 | exactly those logs past the limit that are not alive are deleted |
| `LoginState.UserService.DeleteLoginLogs` | server/service/user.go:341-357 | logs are ended, dropped and deleted one by one until one is missing; it succeeds if and only if they are distinct and exist |
| `LoginState.UserService.LogoutById` | server/service/user.go:141-157 | the tokens of all alive logs of the user are dropped |
| `LoginState.UserService.DeleteUserById` | server/service/user.go:294-339 | the user goes and the tokens of the user's alive logs are dropped |
| `LoginState.UserService.CreateUser` | server/service/user.go:234-262 | a user is created with the flag of the request unless the name is taken |
| `LoginState.UserService.UpdateUser` | server/service/user.go:386-421 | the name and the flag of the request are written, where an empty name and an absent flag leave them, unless the new name is taken |
| `LoginState.UserService.ImportUsers` | server/service/backup.go:126-150 | each user whose name is free is created with the flag of the file |
| `LoginState.UserService.DeleteAllLdapUser` | server/service/user.go:382-384 | the users of the source go, and neither their logs nor their tokens |
| `LoginState.UserService.FixUserOnlineState` | server/service/user.go:92-112 | exactly the online users with an alive log stay online |
| `LoginState.UserService.ReloadToken` | server/service/user.go:199-232 | alive logs get their tokens back with the lifetime they had; those without a user are deleted |
| `LoginState.StartUp` | server/app/app.go:47-92 | a new process over the stored users and logs is the machine's restart |
| `LoginState.LogOutTwice` | server/service/user.go:118-139 | ending logins in two goes is ending them at once, so the order of evictions does not matter |
| `LoginState.RunExactly` | server/service/user.go:92-421 | along a run, restarts included, it holds throughout that each cached token has its own alive log of the same user, each online user an alive log and each alive web login its token and an online user, if and only if every creation, update, import and deletion of users fits the logins of its moment; all other events always do |
| `LoginState.CreateExactly` | server/service/user.go:234-262 | creating a user keeps this if and only if the name is taken, the flag is not raised or the name has an alive log |
| `LoginState.ChangeExactly` | server/service/user.go:386-421 | updating a user keeps it if and only if a raised flag has an alive log, a lowered one only alive logins of the terminal, and a user who is renamed no token |
| `LoginState.ImportExactly` | server/service/backup.go:126-150 | importing users keeps it if and only if each one who is created with the flag raised has an alive log here |
| `LoginState.DropExactly` | server/service/property.go:99-103 | switching LDAP off keeps it if and only if no user of the source has a cached token |
| `LoginState.DroppedStaysLoggedIn` | server/app/middleware/auth.go:56-71 | otherwise the tokens of users who are gone are accepted and renewed |
| `LoginState.RestartExactly` | server/service/user.go:92-232 | from any state, coherent or not, a restart leads to a coherent one if and only if the alive logs of existing users have the prefix of logins and those of the web an online user |
| `LoginState.RunCoherent` | server/service/user.go:92-262 | a run of events that fit ends in a coherent state, restarts included |
| `LoginState.ReloadExactly` | server/service/user.go:199-232 | after a restart the tokens are exactly those of the alive logs whose user exists, with their lifetime from now; exactly the alive logs without a user are gone, and who was online is so still if an alive log is left |
| `LoginState.RestartKeepsLogins` | server/service/user.go:199-232 | no cached login is lost over a restart |
| `LoginState.DeleteUserCoherent` | server/service/user.go:294-339 | no token of a deleted user stays in the cache |
| `LoginState.LogoutUserEndsAll` | server/service/user.go:184-197 | no token of a disabled user does either, and of the user's logins only those of the terminal stay alive |
| `LoginState.DeleteLogsExactly` | server/service/user.go:341-357 | deleting distinct logs that exist removes exactly these logs and their tokens |
| `LoginState.OnlineExactly` | server/service/user.go:118-139 | without terminal logins a user is online if and only if one of the user's tokens is cached |
| `LoginState.LoginExactly` | server/api/account.go:88-154 | a login is accepted for two weeks if remembered and two hours if not, its log tells who logged in and how, and nobody else is touched |
| `LoginState.UseExactly` | server/app/middleware/auth.go:56-71 | a request renews its token for that time; an expired token stays expired |
| `LoginState.SweepExactly` | server/app/cache.go:8-10 | the janitor ends exactly the logins whose tokens have expired: no accepted token goes, and a user stays online while an alive log is left |
| `LoginState.LogoutExactly` | server/service/user.go:114-139 | a logout ends this login and no other |
| `LoginState.DisableExactly` | server/service/user.go:184-197 | disabling a user ends the user's logins and no other's |
| `LoginState.RemoveExactly` | server/service/user.go:294-339 | deleting a user ends the user's logins and no other's, and takes the user away |
| `LoginState.PurgeExactly` | server/task/ticker.go:257-270 | the clean-up deletes exactly the selected logs that are not alive |
| `LoginState.ChangeWrites` | server/service/user.go:386-421 | an updated user has the name and the flag that were given, or the old ones where none were, and nobody else changes |
| `LoginState.ImportWrites` | server/service/backup.go:126-150 | an import keeps the users it finds and creates the others of the file with the flag that the first of that name has |
| `Lockout.FailCounter.LoginEndpoint` | server/api/account.go:33-90 | each reply with exactly the circumstances it is given in: passed if and only if the key is not locked, the password is at most 100 long and matches that of a user who is not disabled, and the second factor, if set up, is given and valid; an unknown user, a wrong password and a wrong code, and nothing else, raise the counter |
| `Lockout.FailCounter.TotpUI` | server/sshd/ui.go:303-332 | the dialogue of five prompts succeeds if and only if an answer is valid while the answers before it have not locked the key; each answer is an attempt on the same counter |
| `Lockout.RefusedExactly` | server/api/account.go:33-42 | an attempt is refused if and only if the last four counted failures followed one another within the expiration and the last is not older than that |
| `Lockout.AtMostFour` | server/api/account.go:33-85 | for every timed sequence of attempts of both callers, five consecutive counted failures of one key span more than five minutes |
| `Lockout.FourThenRefused` | server/global/cache/cache.go:9-14 | four failures at one moment are all counted, and the next attempts are refused to the end of the five minutes and no longer |
| `Lockout.OtherKeys` | server/api/account.go:34-38 | attempts on other keys do not touch a key's counter |
| `Lockout.SharedKeyExactly` | server/api/account.go:34 | two pairs of address and name share a counter if and only if the addresses differ at most in further digits of the last octet and the one name has these digits before the other |
| `Parameters.AssetRepository.UpdateAttributes` | server/repository/asset.go:185-224 | the asset's stored attributes become the given parameters of its protocol |
| `Parameters.AssetRepository.FindAssetAttrMapByAssetId` | server/repository/asset.go:234-269 | stored attributes over the properties that are parameters of the protocol |
| `Parameters.UpdateThenFind` | server/repository/asset.go:185-269 | what is read after an update is what was given, over the properties for the rest |
| `Parameters.ReadAfterUpdate` | server/repository/asset.go:185-269 | name by name: a value that was given is read, and where none or the empty text was given the property is; a name of another protocol is not read |
| `Parameters.UpdateKeepsOthers` | server/repository/asset.go:185-213 | other assets' attributes are unchanged |
| `Parameters.UpdateKeepsNames` | server/repository/asset.go:185-213 | stored names stay within the protocols' lists |
| `Parameters.NoDriveNameAttribute` | server/common/nt/const.go:76-80 | so the drive's name is never among the attributes |
| `Parameters.ImportThenFind` | server/service/backup.go:92-109 | what is read as an asset's attributes when it is exported, the global properties among them, become attributes of the imported asset, unless empty or no parameter of its protocol; the target's properties show through the gaps |
| `Parameters.RoundTripExactly` | server/service/asset.go:176-204 | an asset reads on the target as on the source if and only if all its attributes are parameters of its protocol and each parameter that is empty or missing on the source is so among the target's properties |
| `Parameters.DriveKeepsOldStorage` | server/service/backup.go:92-109 | the imported asset's drive names its storage by the id that the storage has on the source |
| `Parameters.SetAssetConfig` | server/api/guacamole.go:181-201 | in any order of iteration the result is the base overridden by the attributes with the drive's parameters derived, unless an attribute names an enabled drive otherwise |
| `Parameters.ConfluentExactly` | server/api/guacamole.go:181-201 | all orders give the same configuration if and only if no attribute names an enabled drive otherwise |
| `Parameters.MergedMeans` | server/api/guacamole.go:181-201 | parameter by parameter: an enabled drive has its fixed name and the directory of the storage named, or of the session creator's own; every other attribute overrides the base, but for the storage's id |
| `Parameters.SessionParameters` | server/api/guacamole.go:97-109 | from stored rows to the session each parameter has one value, and a dash becomes empty |
| `DiskFree.GetFileSystems` | server/api/stats.go:212-246 | the loop with its carried flag computes the specification's parse of the output's lines |
| `DiskFree.ParseUintExactly` | server/api/stats.go:228-240 | a decimal number is read if and only if it fits into 64 bits |
| `DiskFree.OutputReadings` | server/api/stats.go:212-246 | every output of rows, with padding, wrapping and spaces in mount points, is read as one reading for each row that depends on the rows before it through the flag alone |
| `DiskFree.OutputExactly` | server/api/stats.go:212-246 | for every output of rows, with padding, wrapping and spaces in mount points, the list returned is that of the device rows with readable numbers if and only if no device is mounted at a point whose name holds a space, where the numbers of such rows are readable |
| `DiskFree.SpacedDeviceSpoils` | server/api/stats.go:212-246 | one such row with readable numbers spoils the list, whatever the other rows are |
| `DiskFree.ReadRightExactly` | server/api/stats.go:219-243 | every beginning of the rows is read as what it means if and only if each row is harmless where it stands, as its fields and the flag before it say |
| `DiskFree.OutputRead` | server/api/stats.go:212-246 | without spaces in mount points the list read is that of the device rows with readable numbers, in order, whatever the padding and whichever rows are wrapped |
| `DiskFree.WrappingDoesNotMatter` | server/api/stats.go:219-243 | two outputs of the same rows without such spaces read the same |
| `DiskFree.OrphanExactly` | server/api/stats.go:225-240 | after a device line without its second line a row is read as what it means if and only if it is harmless under the raised flag |
| `DiskFree.OrphanListExactly` | server/api/stats.go:219-243 | a list of rows after such a line is read as what it means if and only if the first of them that lowers the flag is harmless |
| `DiskFree.OrphanShiftsNextRow` | server/api/stats.go:225-240 | a whole device row after it yields its total, used and percentage instead, or nothing when these are not readable |
| `DiskFree.OrphanListsNextRow` | server/api/stats.go:225-240 | a wrapped row after it that is not a device's is listed |
| `DiskFree.SpacedMountExactly` | server/api/stats.go:225-240 | a wrapped device row whose mount point holds a space is not listed, and the row after it is read right if and only if it is harmless under the raised flag |

## Left out

- `Secrets.Database.UpdateById`: the other columns and the change of the owner are not modelled, because they carry no secret.
- `Backup.Database.Import`: commands (which keep their old owner), access rules and strategies are not imported here; the users' online flags are in `LoginState`, the entries of jobs in `Jobs`, assets' attributes in `Parameters`; rules that the code adds in memory before a failing transaction stay behind, which the tables do not show.
- `BackupExport.Export`: columns that are neither references nor secrets are left out; a membership of a deleted group is not exported.
- `Terminal.TermHandler.WriteTick`: the recorder's timestamps and header are not modelled, because they are foreign effects.
- `SessionClose.SessionService.CloseSessionById`: the wording of a closing frame, which differs by kind of session, is left out; its code and reason are modelled.
- `SessionClose.CloseProtocol`: one session id at a time, and a row is not connected again after it was disconnected; an observer that joins after the registry entry is gone is not closed by anyone.
- `Authorisation.AgreementExactly`: MD5 is taken to be free of collisions, and a membership row's key is the pair it is derived from.
- `AccessRules.Manager.TcpWall`: the answer's form (a page or a JSON failure) is left out; only whether the request passes is stated.
- `AccessRules.CheckWeekDay`: the week day and the time of day are parameters.
- `Gateways.BracketDiscipline`: connections inside a tunnel are left out, because the tunnel's goroutine changes them without the mutex.
- `Jobs.JobService.ChangeStatusById`: whether a cron text parses is a parameter; what a job does when it runs is left out.
- `LoginState.UserService.DeleteUserById`: the deletion of the user's memberships, grants, storage and roles is left out here; memberships and grants are in `Authorisation`.
- `GuacdTunnel.Forward`: the reason's base64 text and the code are parameters, and a farewell that cannot be written is not distinguished.
- `LoginState.RunExactly`: each completed login, refresh and eviction is one step; access tokens, which share the cache and belong to no login, are left out.
- `LoginState.UserService.UpdateUser`: a request whose body names another user's id than its path is not modelled; nor are the roles, which no login depends on.
- `Lockout.AtMostFour`: reading and storing the counter is one step; two requests interleaved between the two could both be counted.
- `Parameters.SessionParameters`: the base configuration is a parameter, because setting it is table data.
- `DiskFree.GetFileSystems`: the scanner's limit on the length of a line is not modelled.
- `Sealing.CbcEncrypt`: the code fills an output buffer; the model returns the value.
- `Signing.PreImage`: the code sorts the caller's list in place; every caller passes a fresh one, so the model sorts a value.
- Errors of the database and of the file system, except those a transaction turns into a rollback; JSON binding and the panics of malformed requests; IPv6 in address groups.
- The insides of AES, MD5, bcrypt and one-time codes: a block cipher is any permutation for each key, the others are parameters.
- `FixSessionState`, paging and search, role and menu caching, version migration, storage paths and quotas, load sampling: single-branch facts or foreign effects.
