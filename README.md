# torus-cli keypair generation and daemon configuration, in Dafny

This project models two pieces of decision logic of the torus CLI and its
session daemon, and proves properties about them.

- **`keypairs generate` and `keypairs list`** (`cmd/keypairs.go`). Generation
  picks the target orgs: every org of the user with `--all`, otherwise the one
  org named by `--org`. It lists each target org's keypairs once and builds a
  has-key table ("has Encryption", "has Signing") from the non-revoked ones.
  It selects the orgs that lack either type and asks the registry to generate
  keypairs for them one by one, stopping at the first failure. The helper
  `generateKeypairsForOrg` generates for one given org, or for the first org
  the registry lists.
- **The daemon's configuration** (`daemon/config.go`, `NewConfig`). It chooses
  the root directory (`$HOME/.arigato` by default). It rejects a root that
  exists but is not a directory and creates a missing root with mode `0700`.
  It accepts the root only if its permission bits are exactly `0700`. It then
  derives the control socket and pid file paths.

Files:

- `wrappers.dfy` (module `Wrappers`): `Option` and `Result`.
- `registry.dfy` (module `Registry`): the registry as a value. It holds the org
  list, the name lookup, each org's keypairs (type, owning org, revoked flag)
  and the calls that fail. `Call` records one registry request.
- `keypairs.dfy` (module `Keypairs`): the specification of key-completeness
  (`ActiveAmong`, `MissingKeyOrgs`, `Targets`, `Expected`) and the commands as
  methods. Each method returns its result and the log of registry calls it made.
- `config.dfy` (module `DaemonConfig`): the filesystem as a value (path to
  entry, umask, scripted stat failures, a mkdir failure), the reference outcome
  `ConfigOutcome`, and `NewConfig` written step by step.

Go map iteration order is arbitrary. The loops over target orgs and over the
orgs to regenerate therefore pick an arbitrary remaining org (`:|`) from a set.
Every contract is stated so that it holds for every visiting order.

The has-key table is keyed by the org that owns each keypair
(`cmd/keypairs.go:151`), not by the org whose listing returned it. The model
keeps this: `ActiveAmong(reg, targets, o, t)` asks whether a keypair listed for
any target org is an active key of type `t` owned by `o`.

The model follows the code in three places where a partial-failure design
might be expected:

- The code stops at the first failed generation. It does not continue with the
  other orgs and report a partial failure.
- A failed keypair listing aborts the whole command, not only that org.
- Nothing guards against two concurrent generations for one org.

## Model

| member | source | states |
|---|---|---|
| Keypairs.SelectTargets | cmd/keypairs.go:111-135 | With `--all`, a failed org listing gives "Could not retrieve orgs, please try again."; otherwise the targets are exactly the ids of the listed orgs. Without `--all`, an empty `--org` gives "Missing flags: --org." with no registry call. A failed or empty lookup gives "Org '<name>' not found.". Otherwise the only target is the named org. The call log is `[ListOrgs]`, `[]` or `[GetOrgByName(name)]`. |
| Keypairs.ScanKeypairs | cmd/keypairs.go:137-162 | Lists each target org at most once and only target orgs. It fails iff some target org's listing fails; it then stops right after the first failed listing. On success the table says org `o` has type `t` iff some non-revoked keypair of type `t` owned by `o` was listed, so revoked keypairs never set a flag. |
| Keypairs.SelectRegen | cmd/keypairs.go:164-169 | An org is selected iff it is a target and its table row lacks Encryption or lacks Signing. |
| Keypairs.RunGenerate | cmd/keypairs.go:171-184 | Every generate call is for a selected org, and no org is called twice. The run succeeds iff no selected org's generation fails, and then every selected org was called. On failure it stops right after the first failing call. |
| Keypairs.GenerateKeypairs | cmd/keypairs.go:98-192 | The outcome equals `Expected`, which does not depend on visiting order. A listing failure gives "Error fetching required context." and a generation failure gives "Error while regenerating keypairs.". Success says "No keypairs missing." iff no org misses a key, and "Keypair generation successful." otherwise. Every generate call is for a target org missing a key. Every target org's listing comes before the first generate call in the log, and no call appears twice, so each target is listed once and each org generated at most once. A generate call that fails is the last call and gives the generation error. An empty `--org` makes no call, and a failed `--all` org listing makes no keypair listing. |
| Keypairs.KeyFlags.With | cmd/keypairs.go:151-156 | Marking a key type in a table row sets that type and leaves the other unchanged. |
| Keypairs.RevokedKeypairIsAbsent | cmd/keypairs.go:146-156 | Adding a revoked keypair to any org's listing changes neither the set of orgs missing keys nor the command's outcome. |
| Keypairs.RevocationOnlyRemovesKeys | cmd/keypairs.go:146-169 | After revoking a keypair it is still listed with its type and owner. Every org missing keys before is still missing them, and the only org that can newly become missing is the keypair's owner. The owner does become missing if no other listed keypair was an active key of that type for it. |
| Keypairs.CompleteOrgsNeedNothing | cmd/keypairs.go:164-190 | If every target org's own listing holds active Encryption and Signing keys and no listing fails, the command reports "No keypairs missing.". |
| Keypairs.ListOrgKeypairs | cmd/keypairs.go:58-80 | A lookup error or a failed keypair listing gives "Could not list keypairs, please try again.". An unknown org gives "Org not found.". Otherwise the result is the org's full listing, revoked keypairs included. |
| Keypairs.GenerateKeypairsForOrg | cmd/keypairs.go:194-219 | With no org id and no lookup, it fails without any registry call. With lookup, a failed or empty org listing fails, and otherwise it generates for the first listed org. A given org id is used directly. It succeeds iff the generate call for the chosen org succeeds. Every failure yields the same message, naming the application. |
| DaemonConfig.ChooseRoot | daemon/config.go:20-22 | A non-empty root is used unchanged; an empty one becomes `.arigato` joined onto the home directory. |
| DaemonConfig.Join | daemon/config.go:55-56 | A joined path is the directory, one separator, then the name. |
| DaemonConfig.JoinInjective | daemon/config.go:55-56 | Different names joined onto one directory give different paths. |
| DaemonConfig.ConfigOutcome | daemon/config.go:19-61 | On success the root is a directory with permission bits exactly 0700, and the config holds the root, the socket and pid paths and the version. The filesystem is either unchanged or gains only the root directory, and only when the root did not exist. A first stat failing for any reason other than non-existence is returned as it is, with nothing created. |
| DaemonConfig.NewConfig | daemon/config.go:19-61 | Following the code step by step (stat, conditional mkdir with 0700, re-stat, permission check), it returns exactly the outcome and filesystem `ConfigOutcome` gives. |
| DaemonConfig.ExistingRootNeedsExactPerm | daemon/config.go:29-51 | An existing root is never modified. A non-directory is rejected. A directory is accepted iff its permission bits equal 0700; any other mode, broader or narrower, is rejected with its actual bits. |
| DaemonConfig.MissingRootCreationFailures | daemon/config.go:34-44 | For a missing root, a mkdir failure is returned and nothing is created. A failure of the following stat is returned, and the directory stays created. |
| DaemonConfig.MissingRootAcceptedIffUmaskKeepsOwnerBits | daemon/config.go:34-51 | A missing root is created as a directory, and the configuration is then accepted iff the umask clears none of the 0700 bits. |
| DaemonConfig.ControlPathsDistinct | daemon/config.go:53-58 | On success the socket path and the pid path are distinct paths directly inside the root. |

## Left out

- Configuration loading (`config.LoadConfig`), the API client construction, the HTTP transport and the command wiring in `init` are not modelled. Registry operations are answered from the registry value.
- Printing: the keypair table of `keypairs list` and the progress lines and final messages of `keypairs generate`. The final message is modelled as the `Done` outcome. The org names are used only in progress lines, so the model does not keep them.
- The effect of a generation on the registry is not visible to the command, so nothing is stated about completeness after generation.
- Org identity is compared by value. The pointer-keyed maps of the Go code, and the loop variable whose address is stored at `cmd/keypairs.go:119`, are not modelled.
- `api/teams.go` holds thin HTTP wrappers for the registry and is not part of this model.
- DaemonConfig.Join: does not model the cleaning `path.Join` does (`..`, `.` and repeated separators). It models only an empty directory and a trailing separator.
- Filesystem semantics are abstract: stat answers from the entry map unless a scripted failure is next, and mkdir fails with the scripted failure, or when the path exists, or else applies the umask. Parent directories, races and ownership are not modelled.
- The build version is the default `"development"`. A different value set at link time is not modelled.
- The error message texts of `NewConfig` are modelled as structured errors (`NotADirectory`, `BadPermissions` carrying the actual bits), not as formatted strings.
