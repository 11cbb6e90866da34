# Memoria paste engine in Dafny

This project models the paste access-control and lifecycle engine of the
memoria backend, a Go service that stores text snippets ("pastes"). The
engine decides:

- who may read a paste, and by which route;
- until when a paste can be read;
- how a private paste's access token is issued;
- how a paste's password is hashed and checked.

Two small side cores come with it. The first is the user record's
password hook and its response form. The second is the rewriting of
environment-variable names and the order in which configuration layers
override each other.

The modules follow the Go packages:

| file | module | Go source |
|---|---|---|
| `wrappers.dfy`, `errors.dfy` | `Wrappers`, `Errors` | `Option`/`Result`, and the error values the layers pass along |
| `hex.dfy` | `Hex` | `hex.EncodeToString`, lowercase Base16 per section 8 of RFC 4648 |
| `bcrypt.dfy` | `Bcrypt` | a concrete stand-in for `bcrypt.GenerateFromPassword` / `CompareHashAndPassword` |
| `pastes.dfy` | `Pastes` | `models/pastes.go`: the record, the privacy tiers, binding, column defaults, the JSON form |
| `paste_repository.dfy` | `PasteRepository` | `repository/pastes.go`: class `PasteRepository` over a `map` from id to paste |
| `paste_service.dfy` | `PasteService` | `services/pastes.go`: token issue, hashing, class `PasteService` with `Create`/`Update`/`VerifyPassword`/`Delete` |
| `paste_handlers.dfy` | `PasteHandlers` | `handlers/pastes.go`: each handler as a total function to a `Response` (status, message, body) |
| `user.dfy` | `Users` | `models/user.go`: class `User` with `BeforeSave` and `ToResponse` |
| `config.dfy` | `Config` | `utils/config.go`: `envKeyReplacer`, the configuration layers, class `ConfigState` with `InitConfig`/`Reload` |

The external pieces are inputs:

- The 16 bytes read from `crypto/rand` are an `Option<RandomBlock>`. `None` means the read failed.
- The salt bcrypt draws is an `Option<Salt>`. `None` means hashing failed.
- The wall clock is a `now: Time` parameter. `Time` counts from Go's zero time, so `0` is the instant `IsZero` reports.
- The database is the repository's `map` plus GORM's id sequence, `nextId`:
  - `First` orders by primary key, so a token lookup returns the lowest matching id.
  - `Save` writes the whole row under its id, or inserts a row without an id.
  - `Create` draws an id from the sequence and fails with a duplicate key when the row already exists.
  - `Delete` does not check that the row exists.

The read handlers take the store. The write handlers take the result of the
service call they make. All of them return the status and message the Go
handler writes.

Behaviours of the code that a reader might expect otherwise, all modelled
as the code has them:

- **Expiry.** A paste is expired only when `now` is strictly after `ExpiresAt`, not at or after it.
- **Private paste read by id.** The answer is 403, not "not found".
- **Unauthorized messages.** A missing password gives the message "Error verifying password"; a wrong password gives "Invalid password".
- **Delete of a missing id.** It answers 200.
- **Update of a missing id.** It answers 500, with the lookup error.
- **Access token.** It is kept when the privacy moves away from `private`, so a non-private paste can still hold one.
- **The `password` tier.** It does not require a password: a paste in that tier with no hash set is served openly.
- **The listing.** `GET /paste/all` lists every public paste with its content, whether it has expired and whether it has a password (repository/pastes.go:29-34, handlers/pastes.go:261-274). Expiry and passwords are checked only when a single paste is read.
- **Request binding.** A create or update request needs a title, content and one of the three privacy tiers, and an update also needs a non-zero id. `syntax_highlight` is optional. On create, the column default stores an empty one as `text`; on update, an empty one is saved as empty.

The record follows the fields the service uses: `ID` is a `uint64`, and
there are `EditorType` and `PrivateAccessID` fields. `models/pastes.go` in
the repository declares a string `ID` and lacks `EditorType` and
`PrivateAccessID`; the service uses a newer struct that has them.

## Model

| member | source | states |
|---|---|---|
| Hex.Encode | services/pastes.go:41 | the token text is twice as long as the bytes and uses only `0-9a-f` |
| Hex.DecodeEncode | services/pastes.go:41 | decoding the hex text of any bytes gives back those bytes |
| Hex.EncodeDecode | services/pastes.go:41 | every even-length lowercase hex string decodes, and re-encodes to itself |
| Hex.EncodeInjective | services/pastes.go:41 | different random blocks give different tokens |
| Bcrypt.Hash | services/pastes.go:46 | a hash carries the `$2a$10$` prefix and its salt, and has a fixed overhead over the password |
| Bcrypt.GenerateFromPassword | services/pastes.go:46-50 | hashing fails exactly when no salt could be drawn |
| Bcrypt.CompareHashAndPassword | services/pastes.go:199-207 | a hash that is too short or has the wrong prefix is malformed, which is distinct from a mismatch |
| Bcrypt.CompareHash | services/pastes.go:199-210 | a hash matches the password it was made from and no other |
| Bcrypt.CompareHashAll | services/pastes.go:199-210 | the same, for every candidate at once |
| Bcrypt.HashIsNotPlaintext | services/pastes.go:45-51 | the stored hash never equals the password |
| Bcrypt.FreshSaltFreshHash | services/pastes.go:45-51 | two salts give two different hashes of one password |
| Pastes.WithColumnDefaults | models/pastes.go:11-14 | an empty privacy is stored as `public`, an empty highlighting as `text`; every other field is kept |
| Pastes.BoundFieldsNeedNoDefault | models/pastes.go:9-14 | a paste whose fields passed binding (required strings, privacy in `public`/`private`/`password`) is stored unchanged by the defaults |
| Pastes.ToJsonAsWritten | models/pastes.go:13 | encoding/json writes `expires_at` for every paste |
| Pastes.ZeroExpiryIsWrittenOut | models/pastes.go:13 | a paste that never expires still gets an `expires_at` member |
| Pastes.ToJson | models/pastes.go:13-15 | `expires_at` is left out exactly when the paste has no expiry; the rendering has no password member |
| Pastes.RenderingsDifferOnlyWithoutExpiry | models/pastes.go:13 | the written and the intended rendering agree exactly for pastes that expire |
| Pastes.JsonHidesPassword | models/pastes.go:15 | the rendering does not depend on the stored hash |
| Pastes.JsonDeterminesAllButPassword | models/pastes.go:7-16 | two pastes with the same rendering differ at most in the hash |
| PasteRepository.FindByID | repository/pastes.go:36-40 | the row with that id, or record-not-found when there is none |
| PasteRepository.FindByToken | repository/pastes.go:58-62 | a stored row holding that token, the one with the lowest id, or record-not-found when none holds it |
| PasteRepository.FoundByTokenIsStored | repository/pastes.go:58-62 | the row found by token is the row stored under its own id |
| PasteRepository.UniqueTokenFindsItsRow | repository/pastes.go:58-62 | a token held by one row only finds that row |
| PasteRepository.Inserted | repository/pastes.go:42-45 | an inserted row gets its id, a creation time when it had none, and the column defaults |
| PasteRepository.InsertEffect | repository/pastes.go:42-45 | an insert adds exactly one row and leaves the others alone; duplicate key and an exhausted sequence leave the table unchanged; an id drawn from the sequence is inserted exactly when no row has it, and the sequence advances on every attempt that draws from it, a duplicate included |
| PasteRepository.SaveEffect | repository/pastes.go:47-50 | a save writes the whole row under its id, or inserts it when the id is zero |
| PasteRepository.PasteRepository.GetAll | repository/pastes.go:29-34 | exactly the public rows, each once |
| PasteRepository.PasteRepository.GetByID | repository/pastes.go:36-40 | the loop-free lookup agrees with `FindByID` |
| PasteRepository.PasteRepository.GetByPrivateAccessID | repository/pastes.go:58-62 | the scan over the table finds what `FindByToken` specifies |
| PasteRepository.PasteRepository.GetByPrivateAccessIDs | repository/pastes.go:64-68 | exactly the rows whose token is in the list, each once |
| PasteRepository.PasteRepository.Create | repository/pastes.go:42-45 | the new table, sequence and result are those of `InsertEffect` |
| PasteRepository.PasteRepository.Update | repository/pastes.go:47-50 | the new table, sequence and result are those of `SaveEffect` |
| PasteRepository.PasteRepository.Delete | repository/pastes.go:52-56 | the id is removed if present, nothing else changes, and the requested id is returned either way |
| PasteService.GeneratePrivateAccessID | services/pastes.go:36-42 | a token is 32 lowercase hex characters that decode to the 16 random bytes; a failed read is an error |
| PasteService.HashPassword | services/pastes.go:45-51 | the hash is not the password, verifies for the password and for nothing else; it fails only when hashing fails |
| PasteService.NewPaste | services/pastes.go:81-110 | the six request fields copied; a token exactly for private pastes; a hash only for a non-empty password; a token failure is reported before a hash failure |
| PasteService.UpdatedPaste | services/pastes.go:135-163 | id and creation time kept; the six fields overwritten; a token issued only on a move into private without one; an existing token never replaced; an empty password keeps the stored hash |
| PasteService.CheckPassword | services/pastes.go:192-211 | no hash gives false; a match gives true; a mismatch gives false; any other compare failure gives an error |
| PasteService.PasswordVerdict | services/pastes.go:182-211 | a missing paste gives the lookup error; otherwise the three-way decision on its stored hash |
| PasteService.CheckStoredHash | services/pastes.go:182-211 | a hash set by create or update verifies exactly the password it was made from |
| PasteService.PasteService.Create | services/pastes.go:81-124 | a failed token or hash stores nothing; otherwise the store changes as inserting `NewPaste` does |
| PasteService.PasteService.Update | services/pastes.go:126-171 | a missing id gives record-not-found and stores nothing; otherwise the store holds `UpdatedPaste` in that row |
| PasteService.PasteService.VerifyPassword | services/pastes.go:182-211 | the answer is `PasswordVerdict` on the current store; true exactly when a hash is set and matches |
| PasteService.PasteService.Delete | services/pastes.go:173-180 | the repository's removal, answering with the requested id |
| PasteHandlers.ParseUint64 | handlers/pastes.go:99-104 | accepted exactly when the text is a non-empty run of decimal digits whose value fits in 64 bits |
| PasteHandlers.ParseFormatted | handlers/pastes.go:99-104 | the decimal text of every uint64 parses back to it |
| PasteHandlers.ParseRejectsOverflow | handlers/pastes.go:99-104 | the decimal text of a value of 2^64 or more is rejected |
| PasteHandlers.IsPasteExpired | handlers/pastes.go:21-33 | a zero expiry never expires; otherwise expired exactly when `now` is after it |
| PasteHandlers.ExpiryIsStrict | handlers/pastes.go:28-32 | at the instant of expiry the paste is still readable, one tick later it is not |
| PasteHandlers.Gate | handlers/pastes.go:114-155 | the checks on a loaded paste in order, each status exactly when its condition holds and with the handler's message: expired 404; private on the id route 403; password missing or wrong 401; verify error 500; else 200 with the paste |
| PasteHandlers.GetPaste | handlers/pastes.go:93-156 | bad id 400; missing 404; a stored paste answered by `Gate` on the id route; so a 200 only for a stored, unexpired, non-private paste whose password, if any, verified |
| PasteHandlers.GetPasteByPrivateAccessID | handlers/pastes.go:289-338 | an unknown token 404; the row the token lookup finds answered by `Gate` on the token route (expired 404, password missing or wrong 401, verify error 500); never 403; a 200 only for that row, unexpired, password verified |
| PasteHandlers.ExpiredHiddenOnReads | handlers/pastes.go:115-119 | an expired paste is 404 when read by id, whatever its privacy and whatever password is supplied, and 404 when read by its token if no other row holds that token |
| PasteHandlers.PrivateOnlyByToken | handlers/pastes.go:121-126 | a live private paste is 403 by id whatever its password and `pw`; without a password it is served by its token if no other row holds that token |
| PasteHandlers.PasswordGate | handlers/pastes.go:128-150 | no password and a wrong one are both 401, with different messages; the right one is 200 |
| PasteHandlers.PasswordTierWithoutPasswordIsOpen | handlers/pastes.go:128 | the gate looks at the stored hash, not at the privacy tier |
| PasteHandlers.CreatePaste | handlers/pastes.go:46-78 | unbound request 400; a service error 500; else 201 with the created paste |
| PasteHandlers.UnsetHighlightStoresText | handlers/pastes.go:50-67 | a create request without `syntax_highlight` binds, and the stored paste gets the `text` default and the requested privacy |
| PasteHandlers.UpdatePaste | handlers/pastes.go:170-198 | unbound request 400; any service error, a missing id included, 500; else 200 with the saved paste |
| PasteHandlers.ListPastes | handlers/pastes.go:251-275 | a service error 500; else 200 with each listed paste rendered, in order, and their count |
| PasteHandlers.ListingHidesPasswords | handlers/pastes.go:270-274 | a listing does not depend on the stored hashes |
| PasteHandlers.DeletePaste | handlers/pastes.go:211-237 | bad id 400 without calling the service; a service error 404; else 200 with the id |
| PasteHandlers.CreatePrivateThenRead | services/pastes.go:92-100 | after creating a private paste the response carries a 32-character token, the id route answers 403 and the token route serves it |
| PasteHandlers.CreateProtectedThenRead | services/pastes.go:102-110 | after creating a password-protected public or `password`-tier paste, reading it without or with a wrong password is 401 and with the password 200 |
| PasteHandlers.CreateExpiredThenRead | handlers/pastes.go:114-119 | a paste created already expired is not found by id |
| Users.SavedPassword | models/user.go:18-27 | an empty password stays empty; a hashing failure is an error; any other value becomes a hash that verifies only that value |
| Users.SavingTwiceLosesThePassword | models/user.go:19-24 | saving twice hashes the hash, and the original password no longer matches |
| Users.User.BeforeSave | models/user.go:18-27 | the password becomes what `SavedPassword` gives; on error it is left as it was |
| Users.User.ToResponse | models/user.go:30-43 | id, name and email unchanged; the response has no password |
| Config.ToLower | utils/config.go:106 | same length; every ASCII capital lowered, every other character kept |
| Config.ReplaceUnderscores | utils/config.go:105-110 | same length; every `_` becomes `.`, every other character kept |
| Config.EnvKeyReplacer | utils/config.go:104-111 | no `_` and no capital in the key; 8 characters shorter exactly when the name has the `MEMORIA_` prefix; each character lowered or made a `.` |
| Config.OnlyOnePrefixRemoved | utils/config.go:107 | a doubled prefix leaves `memoria.` at the front of the key |
| Config.EnvLayerKeys | utils/config.go:83-86 | the environment layer holds exactly the rewritten names of the prefixed variables; a name the replacer blanks (`MEMORIA_` itself) is dropped, so the blank key is never loaded |
| Config.EnvLayerLastWins | utils/config.go:83-86 | when two variables rewrite to one key, the later one's value is kept |
| Config.Merge | utils/config.go:30 | a loaded layer's keys override, all others stay |
| Config.InitialConfig | utils/config.go:26-88 | a read error aborts; a missing file that cannot be written aborts; otherwise environment over file over defaults |
| Config.ReloadedConfig | utils/config.go:64-70 | environment over `.env` over file over defaults; a layer that fails to load is skipped |
| Config.ReloadWithoutDotenvMatchesInit | utils/config.go:66-70 | a reload without a `.env` layer ends where the initial load ended |
| Config.ConfigState.InitConfig | utils/config.go:26-102 | on success the koanf state and the config are `InitialConfig`; on error the config is unchanged and the koanf state holds the defaults; the defaults are written exactly when the file is missing |
| Config.ConfigState.Reload | utils/config.go:54-79 | a watch error changes nothing; otherwise the state is `ReloadedConfig` |

Binding rules are predicates without a contract of their own; the handler
and lemma rows above use them:

- `Pastes.FieldsBind` models models/pastes.go:9-14.
- `PasteHandlers.CreateBinds` and `PasteHandlers.UpdateBinds` are the request rules: title, content and a privacy tier, plus a non-zero id on update; `syntax_highlight` is optional.
- `Users.User.Binds` models models/user.go:12-14.

The service's `GetAll`, `GetByID` and `GetByPrivateAccessID`
(services/pastes.go:53-79) return the repository's answer unchanged. The
repository members above stand for them.

## Left out

- Bcrypt: the stand-in hash is `$2a$10$` + salt + the reversed salt and password. It keeps the behaviour the engine relies on: a hash verifies exactly its password, a hash is never the plaintext, and a hash that does not have the stand-in's layout is malformed. It does not model one-wayness, the cost factor, or the 72-byte password limit. Its malformed boundary is not bcrypt's. The stand-in calls a hash malformed when it is shorter than 29 characters or lacks the exact `$2a$10$` prefix. Real bcrypt rejects any hash shorter than 59 bytes, and it accepts the `$2b$` and `$2y$` prefixes and costs 4 to 31.
- crypto/rand and the clock are inputs, as described above; logging (zerolog) and `context.Context` cancellation are not modelled.
- PasteRepository.PasteRepository.Create: storage failures other than a duplicate key or an exhausted sequence are not modelled. The same holds for connection loss in any repository call. Unique indexes other than the primary key are not modelled.
- PasteRepository.FindByToken: assumes the database's `First` orders by primary key; the database's own tie-breaking is not modelled further.
- PasteRepository.SaveEffect: a `Save` to a non-zero id that no row has is written as a plain map update. GORM would insert it, with the column defaults and the `CreatedAt` stamp of the insert path; the model applies neither. The service only saves rows it has just loaded.
- The `UserID` column and user ownership of pastes are not modelled; the service never sets them.
- `ListPastes`: the `page` and `limit` query parameters are parsed and then ignored (handlers/pastes.go:256-257); the model takes no such parameters.
- The router's `GetPastesByPrivateAccessIDs` handler is not part of this model. Only the repository query is modelled.
- The Go source of the request structs `CreatePasteRequest` and `UpdatePasteRequest` is not part of this model. Their required fields are taken from the generated API description (docs/docs.go:546-576, 737-768). It marks `title`, `content` and `privacy` as required, and also `id` on update. A `required` tag on a string means non-empty, on the id non-zero, and the privacy enum means `oneof`.
- Users.User.Binds: the `email` format check is not modelled; only a non-empty email is required. The `minLength`/`maxLength` tags on the name are documentation, not binding rules.
- PasteHandlers.Gate, PasteHandlers.CreatePaste, PasteHandlers.UpdatePaste, PasteHandlers.ListPastes: they render pastes with the corrected `Pastes.ToJson` (see "## Findings"). For a paste that never expires, the program instead sends `"expires_at": "0001-01-01T00:00:00Z"`, as `Pastes.ToJsonAsWritten` does. `Pastes.RenderingsDifferOnlyWithoutExpiry` shows that this is the only difference.
- Config.ConfigState.Reload: the reload decodes with `k.Unmarshal("", config)` (utils/config.go:73). That uses koanf's default `koanf` struct tag, where the first load uses the `json` tag (utils/config.go:94-97). It also decodes into the existing struct rather than a fresh one, and its unmarshal error (utils/config.go:73-76) is dropped. The model sets `config` to the reloaded layer map and captures none of these three differences.
- Config.ToLower: lowers ASCII letters only; Go's Unicode case mapping is not modelled.
- Config.ConfigState.InitConfig: the `MkdirAll` failure, the environment-load error and the unmarshal error (utils/config.go:34-36, 86-99) are not modelled; neither are the file watcher's threading, `configLock`, or the file contents that `saveDefaultConfig` serialises.
- Configuration layers are flat maps from dotted key to value; koanf's nested merging of maps is not modelled.
- `GetConfig`, `SaveConfig`, `GetFileConfig`, `SaveFileConfig` and `ResetFileConfig` (utils/config.go:167-280) are file I/O around the same layers and are not modelled.
- Concurrent updates to one paste (an unsynchronised read-modify-write) are out of scope.

## Findings

| source | as written | input that shows it | evidently intended | confidence | as-written member | corrected member |
|---|---|---|---|---|---|---|
| models/pastes.go:13 | `json:"expires_at,omitempty"` on a `time.Time`; encoding/json never treats a struct value as empty, so the tag never omits it | any paste with a zero `ExpiresAt`: its JSON carries `"expires_at": "0001-01-01T00:00:00Z"` | `expires_at` is left out when the paste never expires | medium, not executed (`models/pastes.go` in the repository is older than the struct the service uses) | Pastes.ZeroExpiryIsWrittenOut | Pastes.ToJson |
