# Pulga profile resolution and deletion, in Dafny

Pulga is a command-line front end whose `profile` command selects, lists
and deletes *profiles*. A profile is a JSON file in the Pulga home directory
(`PULGA_HOME`). This project models the logic of
`src/Commands/Profile.cs` and the order in which the command handler in
`src/App.cs` calls it:

- **GetProfiles**: the profile names of the home directory. It keeps
  every file whose name ends in `.json` in any casing. It then takes out
  every case-insensitive occurrence of `.json`, not just the suffix.
- **GetProfile**: the profile to use. It fails when there is no profile at
  all. An explicitly given name must be a listed profile. Without a name,
  a non-empty `PULGA_PROFILE` wins and is never checked. Otherwise the
  first listed profile is used.
- **ProfileOperations**: the constructor sets `CurrentProfile`. `Delete`
  runs its guards in order. It refuses the current profile, resolves the
  name again, and refuses a missing exact file `<name>.json`. Only then
  does it delete that one file.
- **List**: the table rows. Each profile is listed, and the one equal to
  `CurrentProfile` gets `" (current profile)"` appended.
- **The handler**: resolve, then list, then show the current profile,
  then delete.

How the model represents the system:

- The home directory is a sequence of file names in enumeration order
  (`FileSystem`).
- A call to `Environment.Exit(1)` becomes an error result carrying an
  `ErrorKind`: `NoProfiles`, `ProfileNotFound`, `CannotDeleteCurrent` or
  `FileMissing`.
- A missing (null) string and the empty string are both `""`, because every
  test the code makes on them is `string.IsNullOrEmpty`.
- `PULGA_PROFILE` and the directory listing are parameters.

Files:

- `text.dfy`: `OrdinalIgnoreCase` comparison, `EndsWith` and `Replace`.
- `filesystem.dfy`: distinct names and `File.Delete`.
- `profile.dfy`: the operations, their lemmas, and the `ProfileOperations`
  class.
- `app.dfy`: the command handler.

Behaviour of the code worth knowing:

- With several profiles, no name and no `PULGA_PROFILE`, the first profile
  in directory order is used; several candidates are not an error
  (`GetProfile`, `GetProfileExamples`).
- The file-exists guard of `Delete` is reachable, not redundant.
  `A.JSON` is listed as `A` and `a.json.json` as `a`, but neither has a
  file `<name>.json` (`DeleteCheckUpperCaseMissing`,
  `DeleteCheckDoubledMissing`).
- A listed name can still contain `.json`. Removing the inner occurrence
  of `..jsonjson.json` joins its two sides into `.json`
  (`ProfileNameCanContainExtension`). So listed names are not guaranteed
  to be free of `.json` in every casing.
- Listed names can repeat even though file names cannot. On a
  case-sensitive file system `a.json` and `a.JSON` are both listed as `a`, and `List` then marks both rows as the
  current profile (`ListedNamesCanRepeat`).
- The current-profile guard compares names, not files. It can let through
  the deletion of the file the current profile was listed from
  (`DeleteCheckCanRemoveCurrentFile`).
- For a name free of `.json`, a present file `<name>.json` means the name
  is listed: the file is listed back as the name (`ProfileNameRoundTrip`).
  So the membership check never refuses it. The converse fails: `A` and
  `a` are listed from `A.JSON` and `a.json.json` without any `<name>.json`
  (`DeleteCheckUpperCaseMissing`, `DeleteCheckDoubledMissing`). For such a
  name whose file is present, only the current-profile guard can refuse
  (`DeleteCheckCleanName`).

## Model

| member | source | states |
|---|---|---|
| Text.RemoveAllIgnoreCase | src/Commands/Profile.cs:129 | Replace with an empty replacement never lengthens the name, and a result of the same length is the name itself |
| Text.RemoveAllUnchangedIff | src/Commands/Profile.cs:129 | Replace leaves a name unchanged exactly when the pattern occurs nowhere in it, ignoring case (both directions) |
| Text.OverlapIsBorder | src/Commands/Profile.cs:129 | two overlapping occurrences of a pattern make the overlap a border of the pattern (a suffix equal to the prefix of the same length) |
| Text.OccurrencesDisjoint | src/Commands/Profile.cs:129 | two occurrences of a self-non-overlapping pattern lie wholly apart |
| Text.RemoveAllDropsTrailing | src/Commands/Profile.cs:129 | for such a pattern, a trailing occurrence is removed and the rest of the string is stripped exactly as on its own |
| Text.RemoveAllShortensAtEnd | src/Commands/Profile.cs:128-129 | a string ending in a self-non-overlapping pattern loses at least that trailing occurrence |
| Text.RemoveAllRoundTrip | src/Commands/Profile.cs:128-129 | a string free of such a pattern, followed by it, ends with it and is stripped back to itself |
| Text.EndsWithIgnoreCase | src/Commands/Profile.cs:128 | `EndsWith` with OrdinalIgnoreCase: the last characters of the name, as many as the suffix has, equal the suffix ignoring case |
| Profile.IsProfileFile | src/Commands/Profile.cs:128 | a file is kept exactly when its name ends in `.json`, ignoring case |
| Profile.ProfileName | src/Commands/Profile.cs:129 | the listed name is the file name with every `.json` (any casing) removed in one left-to-right pass |
| Profile.GetProfiles | src/Commands/Profile.cs:126-129 | the listing has at most one name per file of the directory |
| Profile.ProfileFileIndicesSound | src/Commands/Profile.cs:126-128 | every position kept by the `.json` filter holds a file ending in `.json` in some casing |
| Profile.ProfileFileIndicesIncreasing | src/Commands/Profile.cs:126-128 | the kept positions come in directory order |
| Profile.ProfileFileIndicesComplete | src/Commands/Profile.cs:126-128 | every file ending in `.json` in some casing has its position kept |
| Profile.GetProfilesSelectsProfileFiles | src/Commands/Profile.cs:126-129 | GetProfiles gives one name per kept file, in directory order: entry k is the stripped name of the k-th profile file |
| Profile.GetProfilesEmptyIff | src/Commands/Profile.cs:126-128 | there is no profile exactly when no file ends in `.json` in any casing |
| Profile.GetProfilesConcat | src/Commands/Profile.cs:126-129 | the listing of two directory segments is the listing of the first followed by that of the second |
| Profile.ProfileFileIsListed | src/Commands/Profile.cs:126-129 | every profile file in the directory contributes its stripped name to the listing |
| Profile.ExtensionUnbordered | src/Commands/Profile.cs:129 | `.json` cannot overlap itself in any casing: no proper suffix matches the prefix of the same length |
| Profile.ProfileNameUnchangedIff | src/Commands/Profile.cs:129 | a file is listed under its own name exactly when it contains no `.json` in any casing (both directions) |
| Profile.ProfileNameOfProfileFile | src/Commands/Profile.cs:128-129 | every file kept by the `.json` filter contains the extension, and its listed name is at least the extension's length shorter |
| Profile.ShortStemFile | src/Commands/Profile.cs:128-129 | a stem shorter than `.json`, followed by `.json` in any casing, is a profile file listed as the stem |
| Profile.ProfileNameDropsTrailingExtension | src/Commands/Profile.cs:128-129 | a trailing `.json` in any casing is removed without changing how the rest of the name is stripped |
| Profile.ProfileNameRoundTrip | src/Commands/Profile.cs:128-129 | a name free of `.json` stored as `<name>.json` is a profile file and lists back as the same name |
| Profile.ProfileNameUpperCase | src/Commands/Profile.cs:128-129 | `A.JSON` is a profile file listed as `A` |
| Profile.ProfileNameDoubledExtension | src/Commands/Profile.cs:129 | `a.json.json` is listed as `a`: every occurrence is removed, not only the suffix |
| Profile.ProfileNameRejoins | src/Commands/Profile.cs:129 | `..jsonjson` is stripped to `.json`: removing the inner occurrence joins its two sides, and the result is not scanned again |
| Profile.ProfileNameWithLeadingLetter | src/Commands/Profile.cs:129 | `a..jsonjson` is stripped to `a.json` |
| Profile.ProfileNameInnerOccurrence | src/Commands/Profile.cs:128-129 | `a..jsonjson.json` is a profile file listed as `a.json` |
| Profile.ProfileNameCanContainExtension | src/Commands/Profile.cs:129 | the profile file `..jsonjson.json` is listed as `.json`, so stripped names can still contain the extension |
| Profile.GetProfile | src/Commands/Profile.cs:99-120 | no profiles gives NoProfiles whatever is asked; a given name succeeds exactly when it is listed and is then returned, else ProfileNotFound; without a name it succeeds exactly when some profile exists, returning PULGA_PROFILE unchecked when set and otherwise the first listed profile |
| Profile.GetProfileWithoutProfileFiles | src/Commands/Profile.cs:101-105 | a directory without any `.json` file fails with NoProfiles for every requested name and every PULGA_PROFILE |
| Profile.GetProfileSingleFile | src/Commands/Profile.cs:107-119 | for a name free of `.json` in any casing: with the single file `<name>.json`, no name and no PULGA_PROFILE give `name`, and asking for `name` gives `name` |
| Profile.ListingOfTwoLetters | src/Commands/Profile.cs:126-129 | `A.json` and `B.json` are listed as `A` and `B`, in directory order |
| Profile.GetProfileExamples | src/Commands/Profile.cs:107-119 | with `A.json` and `B.json`: `A` found, `C` ProfileNotFound, no name gives the first profile `A` (no ambiguity error), PULGA_PROFILE=Z gives `Z` with no `Z.json` present |
| Profile.Annotate | src/Commands/Profile.cs:47-55 | same length and order as the listing; a row gains `" (current profile)"` exactly when its profile equals the current profile |
| Profile.AnnotateWithoutCurrent | src/Commands/Profile.cs:50-51 | a current profile that is not listed (an unchecked PULGA_PROFILE) marks no row |
| Profile.AnnotateMarksAtMostOne | src/Commands/Profile.cs:50-51 | in a listing without repeated names at most one row is marked |
| Profile.ListedNamesCanRepeat | src/Commands/Profile.cs:47-51 | listings can repeat a name: on a case-sensitive file system the distinct files `a.json` and `a.JSON` both list as `a`, which is the default profile, and both rows are marked as the current profile |
| Profile.ListingOfSameStem | src/Commands/Profile.cs:126-129 | `a.json` and `a.JSON` are both listed as `a` |
| Profile.ProfileOperations.Listing | src/Commands/Profile.cs:45-56 | one row per listed profile, in order; a row is its profile with `" (current profile)"` appended exactly when it equals CurrentProfile; an unlisted CurrentProfile leaves the rows equal to the profile names |
| Profile.DeleteCheck | src/Commands/Profile.cs:71-88 | deleting the current profile fails with CannotDeleteCurrent; the deletion passes exactly when the name is not current, resolves, and `<name>.json` is in the directory; an unlisted non-empty name fails with the resolution's error; a resolved name without its file fails with FileMissing |
| Profile.DeleteCheckCleanName | src/Commands/Profile.cs:79-87 | for a name free of `.json` whose file is present only the current-profile guard can refuse |
| Profile.DeleteCheckUpperCaseMissing | src/Commands/Profile.cs:81-87 | `A.JSON` is listed as `A` but deleting `A` fails with FileMissing |
| Profile.GetProfilesOfTwo | src/Commands/Profile.cs:126-129 | a directory of two profile files lists their two stripped names in order |
| Profile.DeleteCheckDoubledMissing | src/Commands/Profile.cs:81-87 | `a.json.json` is listed as `a` but deleting `a` fails with FileMissing |
| Profile.ListingOfDoubledPair | src/Commands/Profile.cs:126-129 | `a.json.json` and `a..jsonjson.json` are listed as `a` and `a.json` |
| Profile.DeleteCheckCanRemoveCurrentFile | src/Commands/Profile.cs:73-89 | with current profile `a` listed from `a.json.json`, deleting the listed `a.json` passes and removes `a.json.json`, after which `a` is no longer listed |
| Profile.GetProfilesAround | src/Commands/Profile.cs:126-129 | a profile file between two directory segments contributes its name between their listings, and taking it out leaves the two listings joined |
| Profile.DeleteProfileFile | src/Commands/Profile.cs:89 | deleting a present profile file takes its one name out of the listing, the profiles before and after it staying in order |
| Profile.DeleteKeepsOtherProfiles | src/Commands/Profile.cs:81-89 | deleting the present file `<name>.json` of a name free of `.json` (the file every successful deletion removes) takes exactly that name out of the listing, the profiles before and after it staying in order |
| FileSystem.DeleteFile | src/Commands/Profile.cs:89 | deleting a present file shortens the directory by one; deleting an absent one changes nothing |
| FileSystem.DeleteFileAt | src/Commands/Profile.cs:89 | the deletion removes exactly the first entry with that name and keeps the rest in order |
| FileSystem.DeleteFileKeepsOthers | src/Commands/Profile.cs:89 | on a directory of distinct names, the deletion keeps the names distinct and removes that name and no other |
| Profile.ProfileOperations.constructor | src/Commands/Profile.cs:28-31 | CurrentProfile is the resolved profile for the given name and PULGA_PROFILE |
| Profile.ProfileOperations.Delete | src/Commands/Profile.cs:71-91 | the outcome is the guard chain's; on Pass the directory loses exactly `<name>.json`, on any failure it is unchanged; names stay distinct |
| App.ProfileCommand | src/App.cs:75-87 | a failed resolution ends the run with its error; otherwise the listing, the shown current profile, the deletion outcome and the new directory are those of the operations in handler order, and the file `<current>.json` is never deleted |

## Left out

- Console output: the table rendering of `List`, the `WriteLine` texts and the header line. Only the rows and an error kind are kept.
- The null-argument guards of `List`. They concern the rendering objects, which are not modelled.
- Exit codes. Every failure exits with code 1, and the model returns the error kind instead of ending a process.
- Computing `PulgaHome` and creating the directory. These are platform calls; the directory listing is a parameter.
- The enumeration order of `Directory.GetFiles`. It is whatever order the given sequence has.
- The `System.CommandLine` option declarations and handler registration. These are framework wiring; `App.ProfileCommand` keeps only the call order.
- `--create` and `--edit`. They are declared but have no implementation.
- Text.RemoveAllIgnoreCase: the case mapping covers the ASCII letters only. Non-ASCII characters that `OrdinalIgnoreCase` maps to `j`, `s`, `o` or `n` are compared as themselves.
- FileSystem.DeleteFile: `File.Exists` and `File.Delete` are modelled as exact, case-sensitive name matches, as on Linux. On a case-insensitive file system, `A.json` would find `A.JSON`.
- Profile.ProfileOperations.constructor: it requires a successful resolution. The exit path of line 30 is modelled in `App.ProfileCommand`, the constructor's only caller, which resolves first and constructs only on success.
- Failures of `Directory.GetFiles` and `File.Delete` (permissions, I/O errors). In the code they end the run with an unhandled exception. The model assumes the listing can be read and that a guarded `File.Delete` succeeds.
- Concurrent changes to the home directory between the listing and the deletion.
