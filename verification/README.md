# Grafted Keys: verified model

Grafted Keys is a single-user secrets vault. A random data key encrypts every name, value, note and attachment, each
ciphertext bound to the place it stands in; a passphrase unwraps the data key. This project models the vault in Dafny
and proves what its parts promise together.

- **The vault** (`Aead`, `Aad`, `Text`, `Tables`, `EditLaws`, `Sealing`, `VaultSpec`, `Store`, `Vault`, `Paths`, `Search`,
  `Lifecycle`, `Refinement`, `RekeyRace`, `RekeySchedule`, `Borrowing`). `Tables` holds the relational content over any
  type of cell; with cells of ciphertext it is the database, with cells of plaintext it is what the user sees.
  `Store.DB` and `Vault.Service` change state in place and are proved against the functions of `Tables` and `VaultSpec`;
  the theorems are about those. The main result, `Refinement.VaultRefinesPlain`, is that the encrypted vault cannot be
  told from a plaintext tree.
- **Second factor** (`Totp`, `OneTime`, `CodeRace`): which code is accepted for which time step, and when no step is
  used twice.
- **Login** (`Memory`, `Sessions`, `SessionLife`, `Limiter`, `Login`, `Server`, `HandlerLaws`, `Guesses`,
  `SessionKeys`, `OutdatedLogin`, `LoginRace`): who owns each key buffer, how long a session lives, what throttling bounds, what an
  unlocked session owes its key to, and which sessions still hold the current one.
- **Restore and migration** (`Restore`, `Migrate`, `Upgrade`): crash safety of swapping in a backup, resumable upgrades,
  and when the program serves after a restore.
- **Text forms** (`EnvFile`, `Import`, `Duration`, `Settings`, `Numbers`): `.env` files and saved durations.

`Common` holds the shared types, `Samples` the inputs of concrete runs. `dafny verify dfyconfig.toml` checks everything.

Some promises hold only under a condition, and the model states which, with an input that breaks them:

- a re-wrap, a write or an enrolment needs the current data key (`Lifecycle.ChangePassphraseExactly`,
  `Lifecycle.WriteExactly`, `Lifecycle.EnrolExactly`), which a session loses when another one rekeys
  (`SessionKeys.CurrentExactly`, `Borrowing.OtherSessionsGoStale`) and a handler when its buffer is scrubbed under
  it (`Borrowing.BorrowedWriteExactly`, `Borrowing.BorrowedEnrolmentExactly`);
- a login is promoted with the current key only if the second factor is sealed under it
  (`Login.AcceptedCodeKey`, `OutdatedLogin.OutdatedKeyIsPromoted`), and enters it only if no rekey commits in between
  (`LoginRace.HeldIsCurrentExactly`, `LoginRace.OutdatedFromBirth`);
- a passphrase change overtaken by a rekey loses the vault, and a rekey overtaken by a passphrase change undoes it
  (`RekeyRace.RacesKeepExactly`, `RekeySchedule.KeptUnlessOvertaken`, `RekeyRace.OvertakenChangeLosesTheVault`,
  `RekeyRace.OvertakenRekeyRestoresThePassphrase`); the epoch rises by one exactly when the row read is still the one
  stored (`RekeyRace.CommitExactly`);
- a lockout can be cut short by a failure admitted before it (`Limiting.LockoutStandsExactly`,
  `Limiting.LateFailureUnlocks`);
- a code can be accepted twice when verifications overlap, and even by one that comes after them
  (`CodeRace.SafeExactly`, `CodeRace.LowerStepReopensHigher`);
- an oversized backup is cut without notice (`Restore.RestoredExactly`, `Restore.OversizedIsCut`);
- after a restore the program serves only if the backup is ready to migrate, which vetting does not ask
  (`Upgrade.RestoreServesExactly`, `Upgrade.VettedMayNeverServe`), and a negative schema version makes the migration loop
  index out of range (`Migrate.PanicsExactly`, `Migrate.NegativeVersionPanics`);
- a double-quoted `.env` value loses a backslash before an n (`EnvFile.QuotingRoundTrip`), and a second import duplicates
  everything when a name in the target does not open (`Import.SecondImportExactly`, `Import.StaleNameDoubles`).

## Model

| member | source | states |
|---|---|---|
| Aad.FieldAadInjective | internal/vault/vault.go:39-42 | a field's role string determines entity, id and field, for slash-free entity and field and any id at all |
| Aad.WrapAadInjective | internal/vault/vault.go:32-37 | the string that binds the wrapped key determines the epoch, the three Argon2id costs and the salt, through their decimal and hexadecimal text |
| Aad.FamiliesDisjoint | internal/vault/vault.go:32-42 | no wrap string is ever a role string |
| Aad.StringsAreWritten | internal/vault/vault.go:32-42 | one string of either kind as it stands in a database, letter by letter |
| Text.DecimalDenotes | internal/vault/vault.go:34-37 | decimal text is non-empty, all digits, and denotes the number it was printed from |
| Text.SignedDecimalInjective | internal/vault/vault.go:34-37 | signed decimal text determines the number |
| Text.HexInjective | internal/vault/vault.go:34-37 | hexadecimal text determines the bytes |
| Tables.RolesDistinct | internal/store/rekey.go:7-16 | two different encrypted columns or rows never share a role string |
| Tables.CellsDetermineRows | internal/store/rekey.go:7-16 | the listed ciphertext columns and the TOTP column, with ids, parents and sizes, are all there is to a store |
| Tables.PutLaw | internal/store/rekey.go:67-75 | an UPDATE of one ciphertext column changes that cell of that row and no other |
| Tables.EditsKeepIntact | internal/store/store.go:139-214 | every insert, update and cascading delete keeps the foreign keys and the folder/environment exclusive-or check |
| Tables.EditCell | internal/store/model.go:80-299 | a write fills in exactly its own cells; every other cell that remains is as it was, and only deletes take cells away |
| Tables.EditShape | internal/store/model.go:80-299 | whether a write succeeds, with which error, and which rows it adds or removes depends on ids and links alone, never on cell contents |
| EditLaws.AttachmentGoes | internal/store/model.go:336-338 | a removed attachment takes its own row out and nothing else; it fails exactly on a missing one |
| EditLaws.SecretGoes | internal/store/model.go:258-260 | a removed secret takes exactly itself and the attachments whose secret it is |
| EditLaws.FolderGoes | internal/store/model.go:206-208 | a removed folder takes exactly itself, its secrets and their attachments |
| EditLaws.EnvironmentGoes | internal/store/model.go:162-164 | a removed environment takes exactly itself, its folders, the secrets in either, and their attachments |
| EditLaws.ProjectGoes | internal/store/model.go:118-120 | a removed project takes exactly itself, its environments, their folders, the secrets in either, and their attachments |
| EditLaws.ProjectComes | internal/store/model.go:80-85 | a new project fails exactly on a taken id; else it is the one row more, with its name |
| EditLaws.EnvironmentComes | internal/store/model.go:124-129 | a new environment fails exactly on a taken id or a missing project; else it is the one row more, under that project |
| EditLaws.FolderComes | internal/store/model.go:168-173 | a new folder fails exactly on a taken id or a missing environment; else it is the one row more, under that environment |
| EditLaws.SecretComes | internal/store/model.go:212-217 | a new secret fails exactly on a taken id or unless one existing parent is named and no other; else it is the one row more, under that parent, with its three fields |
| EditLaws.AttachmentComes | internal/store/model.go:294-299 | a new attachment fails exactly on a taken id or a missing secret; else it is the one row more, under that secret, with its size |
| EditLaws.NameChanges | internal/store/model.go:114-204 | a new name goes to the one row of that id and fails exactly on a missing one |
| EditLaws.SecretChanges | internal/store/model.go:253-256 | a changed secret has the three given fields and its parent of before; every other row stays |
| Sealing.ReadingUnique | internal/vault/content.go:84-90 | a store has at most one reading under a key |
| Sealing.KeyUnique | internal/vault/content.go:84-90 | a store that holds any ciphertext is readable under at most one key |
| Sealing.MovedFails | internal/vault/content.go:84-90 | a ciphertext moved to any other column, row or table fails to open there under every key |
| Sealing.EditCommutes | internal/vault/content.go:122-349 | a write of sealed fields does to the plaintext reading what the same write of plaintext does, errors included |
| Store.DB.InitVault | internal/store/vault_row.go:54-61 | inserts the single vault row with an empty TOTP column and step 0, or reports the duplicate and changes nothing |
| Store.DB.UpdateVaultWrap | internal/store/vault_row.go:64-69 | replaces epoch, costs, salt and wrapped key and keeps the consumed TOTP step; without a row nothing changes |
| Store.DB.SetTotp | internal/store/vault_row.go:73-77 | stores the sealed secret and the step used to confirm it |
| Store.DB.ClearTotp | internal/store/vault_row.go:79-83 | empties the TOTP column and resets the step |
| Store.DB.UpdateTotpLast | internal/store/vault_row.go:85-88 | stores the consumed step and nothing else |
| Store.DB.CreateProject | internal/store/model.go:80-85 | inserts the row, or reports a taken id and changes nothing |
| Store.DB.CreateEnvironment | internal/store/model.go:124-129 | inserts the row under an existing project, or reports the violated key and changes nothing |
| Store.DB.CreateFolder | internal/store/model.go:168-173 | inserts the row under an existing environment, or reports the violated key and changes nothing |
| Store.DB.CreateSecret | internal/store/model.go:212-217 | inserts the row under exactly one existing parent, the empty string standing for NULL, or reports the violated key or check and changes nothing |
| Store.DB.CreateAttachment | internal/store/model.go:294-299 | inserts the row under an existing secret with its plaintext size, or reports the violated key and changes nothing |
| Store.DB.UpdateProject | internal/store/model.go:114-116 | sets the name of an existing project, or reports it missing |
| Store.DB.UpdateEnvironment | internal/store/model.go:158-160 | sets the name of an existing environment, or reports it missing |
| Store.DB.UpdateFolder | internal/store/model.go:202-204 | sets the name of an existing folder, or reports it missing |
| Store.DB.UpdateSecret | internal/store/model.go:253-256 | sets name, value and notes of an existing secret and leaves its parent, or reports it missing |
| Store.DB.DeleteProject | internal/store/model.go:118-120 | removes the project and exactly the rows that have it as an ancestor, or reports it missing |
| Store.DB.DeleteEnvironment | internal/store/model.go:162-164 | the same from an environment |
| Store.DB.DeleteFolder | internal/store/model.go:206-208 | the same from a folder |
| Store.DB.DeleteSecret | internal/store/model.go:258-260 | removes the secret and exactly its attachments, or reports it missing |
| Store.DB.DeleteAttachment | internal/store/model.go:336-338 | removes exactly the attachment, or reports it missing |
| Store.DB.AllSecretsWithPath | internal/store/model.go:265-290 | lists every joined secret exactly once, with the ciphertexts that stand on its path |
| Store.DB.GetProjectCounts | internal/store/model.go:358-365 | counts the project's environments and all secrets below it, direct or in folders |
| Store.DB.Collect | internal/store/rekey.go:29-65 | collects every ciphertext of the database, the TOTP secret included, each once and as it stands |
| Store.DB.RekeyTx | internal/store/rekey.go:22-83 | succeeds exactly when every ciphertext transforms; then every cell is transformed and the new wrap stands, else the database is exactly as before and the error is one the transformation gave |
| Store.CascadeIsWithout | internal/store/store.go:139-214 | deleting table by table down the foreign keys removes exactly the descendants |
| Paths.JoinAgreesWithBrowse | internal/store/model.go:265-290 | the join and the nested view list the same secret, folder, environment and project, and every secret exactly once |
| Paths.ProjectCountsAreWhatGoes | internal/store/model.go:358-365 | the two counts shown before deleting a project are the numbers of environments and secrets the cascade removes |
| Paths.EnvCountsAreWhatGoes | internal/store/model.go:367-374 | the same for an environment |
| Paths.FolderCountsAreWhatGoes | internal/store/model.go:376-379 | the same for a folder |
| Lifecycle.SetupEstablishes | internal/vault/vault.go:51-101 | over a database without projects, setup succeeds at epoch 1 and the passphrase unwraps the new key over an empty store |
| Lifecycle.NoProjectsNoRows | internal/store/vault_row.go:28-34 | with the foreign keys, a database without projects holds no content row in any table |
| Lifecycle.OnlyThePassphrase | internal/vault/vault.go:104-121 | no passphrase but the right one unwraps anything |
| Lifecycle.RekeyPreservesMeaning | internal/vault/vault.go:171-224 | a rekey raises the epoch by one, keeps rows, links, sizes and consumed TOTP step, opens everything under the new key to the same plaintext, changes every ciphertext, and leaves nothing that the old key opens |
| Lifecycle.RekeyAllOrNothing | internal/store/rekey.go:22-83 | a rekey succeeds exactly when the passphrase unwraps a key that opens every ciphertext, and otherwise leaves the state as it was |
| Lifecycle.ChangePassphraseExactly | internal/vault/vault.go:124-166 | re-wrapping never touches content and keeps the vault readable exactly when it was given the current key, or there is nothing to read |
| Lifecycle.WriteExactly | internal/vault/content.go:122-347 | a write keeps the store readable under the current key exactly when the caller holds that key |
| Lifecycle.EnrolExactly | internal/vault/content.go:500-511 | a confirmed second factor keeps the vault readable exactly when the caller holds the current key; from then on a code is accepted exactly for a holder of the caller's key at a fitting unused step, so under an outdated key no login that unwraps the key later gets through, while one still pending with the outdated key does |
| Lifecycle.DueExactly | internal/vault/content.go:490-496 | a second factor is due exactly while its column holds a ciphertext that a rekey carries over |
| Vault.Service.Setup | internal/vault/vault.go:51-101 | refuses an existing vault and orphaned projects; else stores the wrap and hands the key out in a fresh buffer |
| Vault.Service.Unlock | internal/vault/vault.go:104-121 | hands out the unwrapped key in a fresh buffer, or tells a missing vault from a wrong passphrase; changes nothing |
| Vault.Service.ChangePassphrase | internal/vault/vault.go:124-166 | stores a wrap of the given key under the new passphrase at the next epoch |
| Vault.Service.Rekey | internal/vault/vault.go:171-224 | unwraps, reseals everything under a new key in one transaction and hands the key out, or changes nothing; the old key is scrubbed |
| Vault.Service.CreateProject | internal/vault/content.go:122-129 | seals the name in its role and inserts, failing before any change on an unusable key |
| Vault.Service.CreateEnvironment | internal/vault/content.go:171-178 | the same for an environment |
| Vault.Service.CreateFolder | internal/vault/content.go:220-227 | the same for a folder |
| Vault.Service.CreateSecret | internal/vault/content.go:304-312 | seals name, value and notes in their roles and inserts under the folder |
| Vault.Service.CreateEnvSecret | internal/vault/content.go:315-323 | the same directly under an environment |
| Vault.Service.RenameProject | internal/vault/content.go:131-137 | seals the new name in its role and stores it, or reports a missing row |
| Vault.Service.RenameEnvironment | internal/vault/content.go:180-186 | the same for an environment |
| Vault.Service.RenameFolder | internal/vault/content.go:229-235 | the same for a folder |
| Vault.Service.UpdateSecret | internal/vault/content.go:325-331 | reseals all three fields of a secret and leaves its parent |
| Vault.Service.AddAttachment | internal/vault/attachments.go:66-79 | seals name and bytes in their roles and records the plaintext length |
| Vault.Service.DeleteProject | internal/vault/content.go:139 | removes the project and exactly what hangs below it; needs no key |
| Vault.Service.DeleteEnvironment | internal/vault/content.go:188 | the same from an environment |
| Vault.Service.DeleteFolder | internal/vault/content.go:237 | the same from a folder |
| Vault.Service.DeleteSecret | internal/vault/content.go:349 | the same from a secret |
| Vault.Service.DeleteAttachment | internal/vault/attachments.go:100 | removes exactly the attachment |
| Vault.Service.SecretValue | internal/vault/content.go:275-281 | opens the value in its own role, or reports why not |
| Vault.Service.GetSecretFull | internal/vault/content.go:284-302 | returns all three fields, each opened in its own role, with the folder of the row or the empty string, or the first error in the order name, value, notes |
| Vault.Service.GetAttachmentData | internal/vault/attachments.go:84-98 | returns name and bytes, each opened in its own role, or the first error |
| Vault.Service.ListSecrets | internal/vault/content.go:255-272 | lists each given secret once under its decrypted name, with notes flagged by ciphertext length; fails only on the name of one of them that does not open |
| Vault.Service.ListFolders | internal/vault/content.go:192-206 | lists each folder of an environment once with its secrets; fails only on one of their names |
| Vault.Service.Tree | internal/vault/content.go:364-390 | lists each environment of a project once, with its folders, their secrets and its loose secrets; fails only on one of their names |
| Vault.Service.TotpEnabled | internal/vault/content.go:490-496 | tells whether the TOTP column holds anything |
| Vault.Service.ConfirmTotp | internal/vault/content.go:500-511 | on a fitting code seals the secret in its role and records the matched step; otherwise changes nothing |
| Vault.Service.VerifyLoginTotp | internal/vault/content.go:515-529 | accepts a code of the stored secret at an unused step and consumes that step; otherwise changes nothing |
| Vault.TreeShowsTheJoin | internal/vault/content.go:364-390 | a project's tree shows exactly the join's rows of that project |
| Vault.TreeShowsThePlaintext | internal/vault/content.go:364-390 | over a readable store every name in a tree is the plaintext one, and a secret is flagged exactly when its notes are not empty |
| Search.Search | internal/vault/content.go:432-486 | finds the trimmed query, in any case, in names, notes and the names above: every hit is a match, no secret is hit twice, and below the cut of 100 every match is hit and every row of the join opens; an error is that of a stored name or note of a joined row that does not open |
| Search.CaseMakesNoDifference | internal/vault/content.go:433 | queries that are equal letter by letter, the case of ASCII letters aside, look for the same text |
| Search.ContainsExactly | internal/vault/content.go:475-486 | a text is found to hold a query exactly when some stretch of it equals the trimmed query letter by letter, the case of ASCII letters aside |
| Search.FoundExactly | internal/vault/content.go:432-486 | a row that opens is hit exactly when the query stands in the name or the notes of the secret, in the name of its folder, if it has a named one, of its environment or of its project |
| Refinement.VaultRefinesPlain | internal/vault/vault.go:51-224 | over every sequence of setup, unlock, lock, writes, reads, note and size queries, passphrase changes, rekeys and TOTP requests, the vault answers as a plaintext tree does, and stays unlockable and readable in full |
| Refinement.RunsAgree | internal/vault/content.go:80-349 | the same from any related pair of states, with epochs equal throughout |
| RekeyRace.RacesKeepExactly | internal/vault/vault.go:124-224 | for any number of rekeys and passphrase changes, with any passphrases, interleaved at their real reads and writes with each other and with writes and enrolments: the passphrase in force unwraps a key that opens every ciphertext throughout exactly when no passphrase change, at the moment it writes, wraps a key that is not the current one over a store that holds any ciphertext |
| RekeySchedule.OrderKeepsTheVault | internal/vault/vault.go:124-224 | told from the order of the steps alone: if no commit of a rekey stands between the verification and the write of a passphrase change, the vault is kept, whatever the data |
| RekeySchedule.KeptUnlessOvertaken | internal/vault/vault.go:124-224 | with fresh keys and a store that is never empty: the vault is kept exactly when no commit that takes effect falls between the verification and the write of a passphrase change |
| RekeyRace.RacesKeepTheVault | internal/vault/vault.go:171-224 | rekeys alone, however interleaved, never lose the vault or its content |
| RekeyRace.CommitExactly | internal/store/rekey.go:22-83 | a rekey commits exactly when its key is current or there is no ciphertext; it then stores the epoch after the one it read, so the epoch rises by one exactly when that is the stored one, and puts the passphrase it was given into force; otherwise nothing changes |
| RekeyRace.RewrapExactly | internal/vault/vault.go:124-166 | a passphrase change always writes, at the epoch after the one it read, and leaves a readable vault exactly when its key is current or there is nothing to read |
| RekeyRace.WholeRekey | internal/vault/vault.go:171-224 | an uninterrupted rekey raises the epoch by one and keeps passphrase and content |
| RekeyRace.WholeChange | internal/vault/vault.go:124-166 | an uninterrupted passphrase change raises the epoch by one and keeps key and content |
| RekeyRace.WholeEnrolment | internal/vault/content.go:500-511 | an enrolment between the steps of others is what the vault does on a fitting code for a caller with the current key |
| RekeyRace.OvertakenChangeLosesTheVault | internal/web/handlers_settings.go:98-112 | a passphrase change overtaken by a rekey wraps the key before, after which nothing reads the vault, though both report success |
| RekeyRace.OvertakenRekeyRestoresThePassphrase | internal/vault/vault.go:171-224 | a rekey overtaken by a passphrase change puts the passphrase before back into force |
| RekeyRace.EpochMayDrop | internal/vault/vault.go:171-224 | a run in which an overtaken rekey commits an epoch below the one in force, the vault staying readable; the exact condition is in RekeyRace.CommitExactly |
| Totp.AcceptedExactly | internal/crypto/totp.go:44-60 | a code is accepted for a step exactly when that is the first of the three steps around now that it fits and is above the last used one |
| OneTime.StepsMoveUp | internal/vault/content.go:515-529 | within one enrolment nothing moves the consumed step but an accepted login, which moves it up to a step of the window that its code fits |
| OneTime.StepsAreUsedOnce | internal/vault/content.go:515-529 | within one enrolment, refused attempts at another included, the accepted steps of sequential logins strictly increase above the step consumed before, across rekeys and passphrase changes |
| OneTime.EnrolmentConsumesItsStep | internal/vault/content.go:500-511 | the code that confirms an enrolment is consumed with its own step |
| CodeRace.WholeIsCheckThenNote | internal/vault/content.go:515-529 | a verification is its read and check followed by its unconditional write |
| CodeRace.SafeExactly | internal/vault/content.go:515-529 | for overlapping verifications, from any vault that a passphrase unlocks: whatever the codes and times, the consumed steps strictly increase exactly under the schedules in which no write falls between the read and the write of a call |
| CodeRace.EnrolledIsReached | internal/vault/content.go:500-511 | the vault of the two runs that fail is what a first setup and an accepted enrolment leave, and its passphrase unlocks the key their calls use |
| CodeRace.LowerStepReopensHigher | internal/store/vault_row.go:85-88 | from a vault just set up and enrolled, two overlapping verifications write falling steps, after which a third that overlaps nobody accepts the first one's code again |
| Memory.Zero | internal/crypto/crypto.go:106-110 | overwrites every byte of the buffer with zero |
| Sessions.Sessions.New | internal/auth/session.go:73-80 | adds a session under a fresh id that alone owns the buffer; custody holds |
| Sessions.Sessions.Get | internal/auth/session.go:84-103 | finds a live session and renews its idle time unless it is pending; an expired one is removed and its key scrubbed |
| Sessions.Sessions.Promote | internal/auth/session.go:108-124 | moves the buffer, contents intact, to an unlocked session under a fresh id and retires the old id; an unknown id changes nothing |
| Sessions.PromoteTwice | internal/web/handlers_auth.go:154-187 | of two overlapping code posts on one session that both pass, the second promotes what the first made of it: one unlocked session remains, with the key as it was, and the first id handed out is gone |
| Sessions.Sessions.Delete | internal/auth/session.go:127-131 | removes the session and leaves its buffer all zeros |
| Sessions.Sessions.SetDek | internal/auth/session.go:135-142 | gives the session the new buffer and scrubs the old one; on an unknown id the buffer stays outside the map |
| Sessions.Sessions.EvictExpired | internal/auth/session.go:146-155 | removes and scrubs exactly the expired sessions |
| Sessions.Sessions.SetTimeouts | internal/auth/session.go:64-68 | puts the timeouts into force and touches no session |
| SessionLife.UnlockedLifetime | internal/auth/session.go:43-48 | an unlocked session answers exactly when its age is within the maximum and no gap between successive uses exceeded the idle time, wherever sweeps fell |
| SessionLife.PendingLifetime | internal/auth/session.go:43-48 | a pending session answers exactly within its two minutes, however often it is read |
| SessionLife.NothingLingers | cmd/grafted/main.go:125-137 | with a sweep every period, nothing is in the map that had expired more than a period ago |
| SessionLife.GoneStaysGone | internal/auth/session.go:158-163 | an id removed and not given out again never answers again |
| Limiting.Limiter.Allowed | internal/auth/ratelimit.go:40-51 | denies while the global or the address's lockout stands |
| Limiting.Limiter.Fail | internal/auth/ratelimit.go:54-76 | counts in the address's and the global bucket, restarting a decayed one, and locks a bucket at its limit |
| Limiting.Limiter.Reset | internal/auth/ratelimit.go:79-83 | forgets the address's bucket and keeps the global one |
| Limiting.Limiter.Sweep | internal/auth/ratelimit.go:87-96 | forgets exactly the buckets that are neither locked nor within their window |
| Limiting.Limiter.RetryAfter | internal/auth/ratelimit.go:99-110 | the time until the later of the two lockouts ends |
| Limiting.WaitExactly | internal/auth/ratelimit.go:40-110 | the wait is zero exactly when an attempt is allowed, and with nothing else happening an attempt is allowed exactly from the wait on |
| Limiting.FifthFailureLocks | internal/auth/ratelimit.go:54-76 | from any state and whatever else happens, an address's failures within a window of the first add up and lock it exactly from the fifth on, for the whole lockout after the last |
| Limiting.FiveAreTooMany | internal/auth/ratelimit.go:40-76 | so the address alone is turned away exactly when there were five |
| Limiting.ResetForgives | internal/auth/ratelimit.go:79-83 | a success takes the address's bucket away and leaves every other one and the global one |
| Limiting.OnlyFailuresSinceCount | internal/auth/ratelimit.go:36-83 | over any run with a success of the address in it: there is no bucket until the next failure, and then one that counts the failures from there on and is locked from the fifth of those |
| Limiting.FiveSinceAreTooMany | internal/auth/ratelimit.go:36-83 | so the address is turned away exactly from the fifth failure since its success on |
| Limiting.RunIsSane | internal/auth/ratelimit.go:54-76 | in every run no bucket starts in the future or is locked without enough failures or for longer than a lockout |
| Limiting.SweepsUnseen | internal/auth/ratelimit.go:87-96 | sweeps inserted anywhere in a run change no answer, no wait and no lockout |
| Limiting.FailuresBounded | internal/auth/ratelimit.go:29-76 | with at most K attempts in flight, no filling of the global bucket counts more than 19 + K failures, and a run of length T has at most (19 + K)(1 + T/window), whatever the addresses |
| Limiting.LockoutStandsExactly | internal/auth/ratelimit.go:54-76 | in every state a run reaches, a failure that meets a standing lockout, of all or of its address, keeps it exactly when it lands within the window of the bucket's start |
| Limiting.LateFailureUnlocks | internal/auth/ratelimit.go:60-71 | a run from a new limiter with two attempts in flight in which a late failure ends a standing lockout |
| Limiting.SequentialAttemptsKeepLockouts | internal/auth/ratelimit.go:40-76 | with attempts one at a time no failure ever meets a standing global lockout |
| Login.UnlockedWasGranted | internal/web/handlers_auth.go:62-196 | in every run of the handlers an unlocked session holds the key of the latest grant to its id: a setup, a passphrase while no second factor was enabled, an accepted code on a pending session, or its own rekey |
| Login.GrantedKeyIsCurrent | internal/web/handlers_auth.go:154-187 | every granted key is the one the passphrase unwraps after the request, at a code exactly if the second factor is sealed under the current key |
| SessionKeys.CurrentExactly | internal/web/handlers_settings.go:122-141 | in every run of the handlers with any number of sessions, whatever becomes of content and second factor, an unlocked session holds the current key exactly when no other session has rekeyed since its latest grant and that grant, if for a code, was checked against a second factor sealed under the current key |
| OutdatedLogin.OutdatedKeyIsPromoted | internal/vault/content.go:500-529 | a run from a fresh start in which a session that waits for its code is promoted with the key of before a rekey, because another session that was not told enrolled the second factor anew |
| LoginRace.HeldIsCurrentExactly | internal/web/handlers_auth.go:111-187 | with logins, code posts and rekeys interleaved at their reads and writes: an unlocked session holds the current key exactly when the unwrap, check or commit that its key comes from was genuine and no commit has taken effect since, so a session is outdated from birth exactly when a commit fell between that read and its entry |
| LoginRace.WholeLogin | internal/web/handlers_auth.go:111-152 | an uninterrupted login enters the unwrapped key, pending or unlocked as the handler does, and nothing for a wrong passphrase |
| LoginRace.WholeCode | internal/web/handlers_auth.go:154-186 | an uninterrupted code post enters what the handler enters |
| LoginRace.WholeRekey | internal/web/handlers_settings.go:122-141 | an uninterrupted rekey gives its key to the asking session alone |
| LoginRace.OutdatedFromBirth | internal/web/handlers_auth.go:111-152 | a rekey that commits between unwrap and entry leaves the new session with the key before |
| Login.AcceptedCodeKey | internal/vault/content.go:515-529 | a session whose code is accepted holds the current key exactly if the second factor is sealed under it |
| Login.ReadableSecondFactor | internal/vault/content.go:500-511 | over a readable vault it is |
| Guesses.GuessesBounded | internal/web/handlers_auth.go:111-187 | served one at a time, the unlock, code, rekey and passphrase forms together let at most 20 wrong guesses through for each started window |
| Guesses.LimiterSeesEachGuess | internal/web/handlers_settings.go:80-141 | exactly the wrong guesses that were heard count as failures, and each was allowed first |
| Borrowing.BorrowedWriteExactly | internal/web/server.go:251-269 | a handler that borrowed the current key leaves the vault readable, under the passphrase then in force, exactly when its buffer was not scrubbed before it sealed and the vault not rekeyed before it wrote; passphrase changes do no harm |
| Borrowing.BorrowedEnrolmentExactly | internal/web/handlers_settings.go:152-161 | the same for a handler that confirms a second factor |
| Borrowing.OtherSessionsGoStale | internal/web/handlers_settings.go:122-141 | a rekey leaves every other session with the outdated key, and the first write such a session makes cannot be read |
| Server.Handlers.GetSetup | internal/web/handlers_auth.go:53-60 | redirects once the vault exists; else gives a visitor without a session one without a key |
| Server.Handlers.GetUnlock | internal/web/handlers_auth.go:98-109 | redirects before setup and when unlocked; else the same |
| Server.Handlers.PostSetup | internal/web/handlers_auth.go:62-94 | turns away short or unequal passphrases, else sets the vault up and replaces the session by an unlocked one with the new key |
| Server.Handlers.PostUnlock | internal/web/handlers_auth.go:111-152 | throttles, counts a wrong passphrase, and replaces the session by a pending one when a code is due, else by an unlocked one after a reset |
| Server.Handlers.PostCode | internal/web/handlers_auth.go:154-187 | wants a pending session, throttles, counts a wrong code, and promotes on an accepted one |
| Server.Handlers.PostLock | internal/web/handlers_auth.go:189-195 | takes the session out of the map; the buffer that held its key is all zeros |
| Server.Handlers.PostRekey | internal/web/handlers_settings.go:122-141 | wants an unlocked session, throttles, counts a failed rekey, and gives the asking session alone the new key |
| Server.Handlers.PostPassphrase | internal/web/handlers_settings.go:80-120 | wants an unlocked session, throttles, and re-wraps the key that the current passphrase yields, never the session's |
| Server.Handlers.Sweep | cmd/grafted/main.go:125-137 | evicts expired sessions and forgets decayed buckets |
| Server.Handlers.Admit | internal/web/server.go:206-247 | a state-changing request goes on exactly with a live session, its token and no foreign origin |
| HandlerLaws.PostsAreGuarded | internal/web/server.go:217-247 | a post goes on exactly if it comes from a live session with its token and from no other origin; else nothing changes |
| HandlerLaws.LockEnds | internal/web/handlers_auth.go:189-195 | a lock takes the visitor's session out of the map and changes nothing else |
| HandlerLaws.LockedForGood | internal/web/handlers_auth.go:189-195 | after a lock the cookie finds no session, whatever is asked from then on |
| HandlerLaws.PassphraseChanges | internal/web/handlers_settings.go:80-118 | exactly a heard request from an unlocked session, with a new passphrase of eight runes given twice and the right current one, changes anything stored: from then on the new one unwraps the key that the current one unwrapped, the current one nothing unless it is the same, and content and consumed step stand; only a wrong current one counts as a failure |
| HandlerLaws.UnlockAnswers | internal/web/handlers_auth.go:111-151 | the right passphrase exchanges the visitor's session for one with the key, which owes a code exactly if a second factor is enabled; without one the address is forgiven, with one it keeps its failures, and a wrong passphrase is one failure more |
| HandlerLaws.CodeAnswers | internal/web/handlers_auth.go:154-186 | an accepted code exchanges a pending session for an unlocked one with the same key under a new id and forgives the address; any other outcome of the check is one failure more |
| HandlerLaws.SetupAnswers | internal/web/handlers_auth.go:62-95 | setup goes through exactly for a passphrase of eight runes given twice over a database without vault or projects; then the passphrase unwraps the new key, which the new session holds |
| HandlerLaws.RekeyAnswers | internal/web/handlers_settings.go:122-141 | a rekey that succeeds leaves a vault that the passphrase unlocks to the new key, gives that key to the asking session alone and forgives the address; one that fails is one failure more |
| HandlerLaws.VisitAnswers | internal/web/handlers_auth.go:33-108 | a visit touches neither store nor limiter, and gives a visitor without a session one without a key exactly if the form is open |
| HandlerLaws.SweepAnswers | cmd/grafted/main.go:125-137 | the sweeper takes exactly the sessions that have timed out and the buckets neither locked nor within their window |
| Restore.DataDir.BootUp | cmd/grafted/main.go:47-64 | the boot's checks, three removals, rename and the opening of the store, stopped after any number of file operations, leave the files and the place the step machine says |
| Restore.DataDir.Stage | internal/web/handlers_settings.go:280-311 | stages at most 256 MiB to the side, vets it and commits it by a rename; stopped anywhere it leaves all other files alone |
| Restore.CrashesNeverShow | cmd/grafted/main.go:142-164 | from any files, an invalid staged one included, and however often and wherever the machine stops: whatever is served is the vault as it was last or the whole latest vetted backup without old sidecars, brought to the newest version, and while the database file is missing a valid replacement waits |
| Restore.DataDir.OpenStore | internal/store/store.go:20-44 | creates the database file if there is none, then commits one migration after the other; stopped anywhere it leaves the files and the place the step machine says |
| Restore.BootServesExactly | cmd/grafted/main.go:47-64 | a boot that is not stopped serves exactly when the valid staged backup, or else the vault as it stands, comes through the opening of the store; otherwise it fails |
| Restore.ServesExactly | cmd/grafted/main.go:47-64 | however often the program is started and stopped, it ever comes to serve exactly when what its files hold for a boot comes through the opening; after a backup that does not, no boot serves |
| Restore.RestoredExactly | internal/web/handlers_settings.go:286-300 | what is restored is the upload itself exactly up to the size cap; a longer one is cut to a prefix |
| Restore.UploadsAreJudged | internal/web/handlers_settings.go:267-322 | a request that is not stopped commits exactly what passes vetting, up to the size cap, touches no file of the vault, and otherwise leaves an earlier upload waiting |
| Restore.OversizedIsCut | internal/web/handlers_settings.go:286-300 | an upload one byte over the cap that is committed as another |
| Upgrade.OpensExactly | internal/store/store.go:20-44 | the store comes open exactly over a database that is ready to migrate, and then holds what an undisturbed migration leaves, wherever opening was stopped before |
| Upgrade.RestoreServesExactly | cmd/grafted/main.go:47-64 | after a committed upload the program serves again, now or ever, exactly when the backup is ready to migrate |
| Upgrade.RestoredIsServed | cmd/grafted/main.go:142-164 | the first vault served after a committed upload is the migrated backup: through every stop, between removals, swap and migrations, the same ids, parents, ciphertexts and vault row |
| Upgrade.VettedMayNeverServe | internal/store/store.go:88-115 | a backup that vetting accepts and after which no start of the program ever serves |
| Upgrade.FirstStartServesEmpty | cmd/grafted/main.go:47-64 | over a directory without a database a boot that is not stopped serves an empty vault of the newest version |
| Upgrade.SampleIsFaithful | internal/store/store.go:217-243 | the laws asked of files and databases can be met, with an empty new file, a backup that migrates and one that does not |
| Migrate.File.Migrate | internal/store/store.go:217-243 | runs the scripts from the version counter on, one commit each, stopped before any commit |
| Migrate.File.Validate | internal/store/store.go:88-115 | accepts exactly the versions 1 to 4 with a vault row |
| Migrate.VettedExactly | internal/store/store.go:88-115 | a file with the tables of its version passes vetting exactly if it holds a vault |
| Migrate.RebuildKeeps | internal/store/store.go:167-188 | the rebuild of the secrets keeps every secret with its fields, under its folder alone, changes no other table, and takes away exactly the attachments of those secrets |
| Migrate.MigrationPreserves | internal/store/store.go:117-243 | from every supported version and after any number of commits the file holds the same ids, parents, ciphertexts, vault row and settings, with every link and the exclusive-or check intact, and ends at the newest version |
| Migrate.StopsDoNotMatter | internal/store/store.go:217-243 | stopped between commits however often, a run that gets through ends in the same database |
| Migrate.AcceptedFilesPass | internal/store/store.go:88-243 | a vetted file passes the version guard and, with the tables of its version, migrates with its vault row |
| Migrate.MigratesExactly | internal/store/store.go:118-243 | migration gets through exactly when the tables each remaining script needs exist, parents of foreign keys included, fit, and those it creates do not exist |
| Migrate.AcceptedMayFail | internal/store/store.go:88-115 | a concrete file that vetting accepts and migration refuses |
| Migrate.MissingParentFails | internal/store/store.go:167-188 | a concrete file without secrets that vetting accepts and the second script refuses for want of a parent table |
| Migrate.PanicsExactly | internal/store/store.go:217-243 | the loop over the migrations indexes out of range exactly when the version counter is negative |
| Migrate.NegativeVersionPanics | internal/store/store.go:217-243 | a file at version -1 on which it does |
| Migrate.FreshFile | internal/store/store.go:217-243 | a first boot leaves an empty vault |
| EnvFile.ParseEnv | internal/web/handlers_import.go:24-43 | collects the pair of every line that holds one, in order |
| EnvFile.LineExactly | internal/web/handlers_import.go:24-43 | a line holds a pair exactly if it is, whitespace and a leading export aside, neither blank nor a comment and has an equals sign after something that is not blank; the first such sign parts the two |
| EnvFile.ReadingUndoesPrinting | internal/web/handlers_import.go:24-57 | for every list of assignments, comments and blanks, with any spacing, exports, carriage returns and quoting styles, reading the printed file gives the pairs back in order |
| EnvFile.QuotingRoundTrip | internal/web/handlers_import.go:45-57 | a double-quoted value comes back exactly when it has no backslash before an n |
| EnvFile.UnquoteQuoted | internal/web/handlers_import.go:45-57 | what comes back is the value with each such pair read as a newline, and nothing else changed |
| Import.ImportEnv | internal/web/handlers_import.go:77-124 | creates a secret for the first pair of each new normalized name, in order, passing over refused ones; no name counts as existing when one in the target does not open |
| Import.ImportAddsExactly | internal/web/handlers_import.go:92-122 | an import adds exactly one secret for each new name, with the first pair's value, in the target, and changes nothing else |
| Import.ImportsInto | internal/web/handlers_import.go:77-112 | an import needs the one target it is given, the environment before the folder, and creates every secret directly in that |
| Import.TargetIsOnThePath | internal/web/handlers_import.go:92-102 | the secrets whose names are compared are those that the join shows directly in the target |
| Import.SecondImportExactly | internal/web/handlers_import.go:88-122 | a second import of a file, over the store the first left and the names it finds there, changes nothing exactly when every name in the target opens or the file names nothing; else every name is created once more |
| Import.ImportTwice | internal/web/handlers_import.go:77-124 | the same for two uploads, one after the other |
| Import.StaleNameDoubles | internal/web/handlers_import.go:88-122 | an environment with one name written under an outdated key, into which every file that names anything is imported twice in full |
| Import.StoredNamesAreKnown | internal/web/handlers_secret.go:12-18 | a file written out under the stored names imports as its original does |
| Import.NormalizingTwice | internal/web/handlers_secret.go:12-18 | the name convention is idempotent, so stored and normalized names compare like with like |
| Import.NormalizedLetters | internal/web/handlers_secret.go:12-18 | a stored name has capitals for ASCII letters, no whitespace, and every other character as it was |
| Import.GapBecomesUnderscore | internal/web/handlers_secret.go:12-18 | a run of whitespace between two parts of a key becomes one underscore |
| Duration.ShortRoundTrip | internal/web/handlers_settings.go:383-392 | the short form of every 64-bit duration parses back to it |
| Duration.WrittenDurations | internal/web/handlers_settings.go:212-221 | whole numbers with units, one after the other and with or without a sign, are read as their sum in nanoseconds |
| Settings.Checked.Validate | internal/config/config.go:130-146 | repairs low values; only an unreadable time of day is an error |
| Settings.WithOverrides | internal/config/config.go:67-87 | lays readable stored values over the configuration and validates |
| Settings.Table.SetSettings | internal/store/store.go:69-86 | upserts every given setting and keeps the others |
| Settings.Table.SaveSessionConfig | internal/web/handlers_settings.go:212-236 | saves and applies two durations exactly when both parse and zero is below the first and the first not above the second; otherwise nothing changes |
| Settings.Table.SaveBackupConfig | internal/web/handlers_settings.go:184-209 | saves a readable time of day, or none, and a retention of at least one |
| Settings.SavedTimeoutsSurvive | internal/config/config.go:67-87 | after any saves, in any order, the next start runs with exactly the timeouts that were in force |
| Settings.SavedScheduleSurvives | internal/config/config.go:67-87 | after any saves, in any order, the next start runs with the time of day and the retention saved last |
| Settings.StartsWith | internal/config/config.go:67-146 | a stored value that is absent or unreadable leaves the environment's, and what is too low is raised just enough |
| Settings.UnreadableTimeIsIgnored | cmd/grafted/main.go:64-71 | a stored time of day that cannot be read makes the start ignore all that is stored |
| Settings.TimeoutsSurviveExactly | cmd/grafted/main.go:64-71 | saved timeouts survive a start exactly when the time of day in force can be read, or they are the environment's own |

## Left out

- Real AES-GCM, Argon2id, HMAC and the random source: a blob remembers what was sealed, a passphrase key is its own derivation, codes are an arbitrary function of secret and step, and every random draw is a parameter; that ids, tokens and data keys drawn are new is a condition of the lemmas that need it. Failures of the random source are not modelled.
- The ciphertext of a field binds its role and not a version: a ciphertext put back into the role it was sealed for still opens.
- SQL text, drivers and pragmas; disk and statement errors, among them a failing read of the vault row during login, which the program takes for a disabled second factor (internal/web/handlers_auth.go:138).
- Timestamps, sort columns and the order of lists: every list is some enumeration of its rows, and which hundred hits a search keeps is left open.
- Vault.Service.DeleteProject: asks for intact foreign keys, which the database enforces on every statement; so do the other four deletions.
- Reads that only pass on a row or a decrypted name: single project, environment and folder lookups, breadcrumbs, attachment lists and counts.
- Scrubbing of passphrases, derived keys and of the data key that a failed handler drops; only the buffers of the session map and the old key of a rekey are followed.
- Login.UnlockedWasGranted: requests are served one at a time; the limiter, the TOTP step, two code posts on one session, the rekey and passphrase transactions and the borrowed key buffers are treated with overlap in their own modules.
- Guesses.GuessesBounded: one request at a time; with K in flight the limiter's own bound is Limiting.FailuresBounded.
- SessionKeys.CurrentExactly: requests are served one at a time; logins and rekeys that overlap are in LoginRace.HeldIsCurrentExactly.
- LoginRace.HeldIsCurrentExactly: a code's check and a rekey's commit are one step each, and a passphrase change keeps the key; their own steps are in CodeRace.SafeExactly and RekeyRace.RacesKeepExactly.
- RekeySchedule.KeptUnlessOvertaken: over a store without ciphertext a replaced key does no harm, and may come back into force; RekeyRace.RacesKeepExactly covers that case.
- Login.GrantedKeyIsCurrent: speaks of the moment of the grant; what comes later is in SessionKeys.CurrentExactly and Borrowing.OtherSessionsGoStale.
- Borrowing.BorrowedWriteExactly: one seal and one write a handler; buffers are values by name, and scrubbing one is a single step.
- The design document says that a passphrase change rotates the session; the code re-wraps the key and leaves every session as it is, and the model follows the code.
- Cookies, origins, headers, templates, pages and redirect targets; of the request checks the session, its token and whether the origin is foreign are modelled.
- Clock: times are integers that do not run backwards within a run; Unix times before the first minute are excluded for TOTP.
- Durability of renames and removals (no fsync), transient failures of file checks, file operations that fail and let the program carry on, and two restores at once sharing the staging file; validity of a file is taken to depend on its bytes alone.
- Upgrade.OpensExactly: what database the files hold, and the files after a commit, are given functions of which only agreement on the migrations is asked; unreadable files are those whose version is not supported.
- Restore.DataDir.Stage: the typed confirmation, the choice of the source and errors while reading it.
- Restore.CrashesNeverShow: the safety snapshot before a restore is best effort and lies outside the data directory; it is not modelled.
- Migrate.File.Migrate: other tables that a foreign file may carry, such as one named like the rebuilt one, and indexes are not modelled.
- Backup scheduling, retention, download names and formatting helpers: they would add only easy members.
- Text beyond ASCII: spaces, case and line ends are those of ASCII, and the cut of an imported file at 1 MiB is left to the caller.
- Import.ImportEnv: names and values pass between text and bytes through given functions.
- Duration.ShortRoundTrip: the floating-point product that scales a fraction is a given function, asked to be exact only where the IEEE 754 product is (a unit divisible by the scale), which covers everything that is printed.
- Settings.WithOverrides: reading whole numbers and times of day are given functions.
- The settings page of totpBegin and other handlers that only call one vault method.
