/** The handler of the `profile` command (src/App.cs): build the operations
    object (which resolves the profile), then list, then show the current
    profile, then delete, each when its option is given. */
module App {
  import opened FileSystem
  import opened Profile

  datatype Option<T> = None | Some(value: T)

  /** What one run of the command produced. */
  datatype Report = Report(
    listing: Option<seq<string>>,  // rows of the --list table
    shown: Option<string>,         // profile printed by --current-profile
    deletion: Option<Outcome>,     // outcome of --delete; Fail ends the run with exit code 1
    home: seq<string>)             // the home directory afterwards

  /** One run of `profile` with the given options; an empty string stands for
      an option (or PULGA_PROFILE) that is not given. A failed resolution
      stops the run before anything else happens. */
  method ProfileCommand(home: seq<string>, pulgaProfile: string,
                        list: bool, delete: string, profile: string, currentProfile: bool)
    returns (r: Result<Report>)
    requires Distinct(home)
    ensures GetProfile(home, profile, pulgaProfile).Err? ==>
              r == Err(GetProfile(home, profile, pulgaProfile).error)
    ensures GetProfile(home, profile, pulgaProfile).Ok? ==> r.Ok?
    ensures r.Ok? ==>
              var current := GetProfile(home, profile, pulgaProfile).value;
              var check := DeleteCheck(home, pulgaProfile, current, delete);
              r.value.listing == (if list then Some(Annotate(GetProfiles(home), current)) else None) &&
              r.value.shown == (if currentProfile then Some(current) else None) &&
              r.value.deletion == (if delete != "" then Some(check) else None) &&
              r.value.home == (if delete != "" && check == Pass then DeleteFile(home, delete + Extension) else home)
    ensures r.Ok? ==> Distinct(r.value.home)
    ensures r.Ok? ==>
              var current := GetProfile(home, profile, pulgaProfile).value;
              current + Extension in home ==> current + Extension in r.value.home
  {
    var resolved := GetProfile(home, profile, pulgaProfile);
    if resolved.Err? {
      return Err(resolved.error);
    }
    var ops := new ProfileOperations(home, pulgaProfile, profile);
    var listing := if list then Some(ops.Listing()) else None;
    var shown := if currentProfile then Some(ops.currentProfile) else None;
    var deletion := None;
    if delete != "" {
      var outcome := ops.Delete(delete);
      deletion := Some(outcome);
      if outcome.Pass? {
        DeleteFileKeepsOthers(home, delete + Extension);
        assert delete + Extension != ops.currentProfile + Extension by {
          assert (delete + Extension)[..|delete|] == delete;
          assert (ops.currentProfile + Extension)[..|ops.currentProfile|] == ops.currentProfile;
        }
      }
    }
    return Ok(Report(listing, shown, deletion, ops.home));
  }
}
