/** The profile command operations of src/Commands/Profile.cs: listing the
    profiles of the home directory, resolving the profile to use, annotating
    the listing, and deleting a profile. A profile is a file `<name>.json` in
    the home directory; the process exits (Environment.Exit(1)) on every
    failure, which the model returns as an error kind instead. */
module Profile {
  import opened Text
  import opened FileSystem

  /** Why the command stops with exit code 1. */
  datatype ErrorKind =
    | NoProfiles          // no profile file at all ("create one first")
    | ProfileNotFound     // an explicitly named profile is not listed
    | CannotDeleteCurrent // delete of the profile in use
    | FileMissing         // delete target `<name>.json` is not in the directory

  datatype Result<T> = Ok(value: T) | Err(error: ErrorKind)

  datatype Outcome = Pass | Fail(error: ErrorKind)

  const Extension: string := ".json"

  const CurrentMarker: string := " (current profile)"

  /** A file of the home directory is a profile file when its name ends in
      ".json", ignoring case. */
  predicate IsProfileFile(file: string)
  {
    EndsWithIgnoreCase(file, Extension)
  }

  /** The profile name listed for a file: the file name with every
      occurrence of ".json", in any casing, removed. */
  function ProfileName(file: string): string
  {
    RemoveAllIgnoreCase(file, Extension)
  }

  // ---------------------------------------------------------------------------
  // GetProfiles: the profile names of the home directory
  // ---------------------------------------------------------------------------

  /** GetProfiles: the name of every profile file, in directory order. */
  function GetProfiles(home: seq<string>): (profiles: seq<string>)
    ensures |profiles| <= |home|
  {
    if home == [] then []
    else (if IsProfileFile(home[0]) then [ProfileName(home[0])] else []) + GetProfiles(home[1..])
  }

  /** The positions, from `from` on, of the profile files of `home`. */
  function ProfileFileIndices(home: seq<string>, from: nat): (idx: seq<nat>)
    requires from <= |home|
    ensures forall k :: 0 <= k < |idx| ==> from <= idx[k] < |home|
    decreases |home| - from
  {
    if from == |home| then []
    else (if IsProfileFile(home[from]) then [from] else []) + ProfileFileIndices(home, from + 1)
  }

  /** Unfolding of ProfileFileIndices at a position. */
  lemma ProfileFileIndicesStep(home: seq<string>, from: nat)
    requires from < |home|
    ensures ProfileFileIndices(home, from) ==
            (if IsProfileFile(home[from]) then [from] else []) + ProfileFileIndices(home, from + 1)
  {
  }

  /** Every listed position holds a profile file. */
  lemma {:induction false} ProfileFileIndicesSound(home: seq<string>, from: nat)
    requires from <= |home|
    ensures var idx := ProfileFileIndices(home, from);
            forall k :: 0 <= k < |idx| ==> IsProfileFile(home[idx[k]])
    decreases |home| - from
  {
    if from < |home| {
      ProfileFileIndicesSound(home, from + 1);
      ProfileFileIndicesStep(home, from);
      var rest := ProfileFileIndices(home, from + 1);
      var idx := ProfileFileIndices(home, from);
      forall k | 0 <= k < |idx| ensures IsProfileFile(home[idx[k]]) {
        if IsProfileFile(home[from]) && k > 0 {
          assert idx[k] == rest[k - 1];
        } else if !IsProfileFile(home[from]) {
          assert idx[k] == rest[k];
        }
      }
    }
  }

  /** The positions come in increasing (directory) order. */
  lemma {:induction false} ProfileFileIndicesIncreasing(home: seq<string>, from: nat)
    requires from <= |home|
    ensures var idx := ProfileFileIndices(home, from);
            forall k :: 0 < k < |idx| ==> idx[k - 1] < idx[k]
    decreases |home| - from
  {
    if from < |home| {
      ProfileFileIndicesStep(home, from);
      var rest := ProfileFileIndices(home, from + 1);
      var idx := ProfileFileIndices(home, from);
      ProfileFileIndicesIncreasing(home, from + 1);
      if IsProfileFile(home[from]) {
        forall k | 0 < k < |idx| ensures idx[k - 1] < idx[k] {
          assert idx[k] == rest[k - 1];
          if k > 1 {
            assert idx[k - 1] == rest[k - 2];
          }
        }
      } else {
        assert idx == rest;
      }
    }
  }

  /** Every profile file from `from` on has its position listed. */
  lemma {:induction false} ProfileFileIndicesComplete(home: seq<string>, from: nat)
    requires from <= |home|
    ensures var idx := ProfileFileIndices(home, from);
            forall j :: from <= j < |home| && IsProfileFile(home[j]) ==> j in idx
    decreases |home| - from
  {
    if from < |home| {
      ProfileFileIndicesComplete(home, from + 1);
      ProfileFileIndicesStep(home, from);
    }
  }

  /** GetProfiles keeps exactly the profile files, in directory order, and
      gives one name per kept file (ProfileFileIndicesSound, ProfileFileIndicesIncreasing and
      ProfileFileIndicesComplete say which
      positions these are). */
  lemma {:induction false} GetProfilesSelectsProfileFiles(home: seq<string>, from: nat)
    requires from <= |home|
    ensures var idx := ProfileFileIndices(home, from);
            var profiles := GetProfiles(home[from..]);
            |profiles| == |idx| &&
            forall k :: 0 <= k < |idx| ==> profiles[k] == ProfileName(home[idx[k]])
    decreases |home| - from
  {
    if from < |home| {
      GetProfilesSelectsProfileFiles(home, from + 1);
      GetProfilesStep(home, from);
      var rest := ProfileFileIndices(home, from + 1);
      var restProfiles := GetProfiles(home[from + 1..]);
      if IsProfileFile(home[from]) {
        var idx := [from] + rest;
        var profiles := [ProfileName(home[from])] + restProfiles;
        assert ProfileFileIndices(home, from) == idx;
        forall k | 0 <= k < |idx| ensures profiles[k] == ProfileName(home[idx[k]]) {
          if k > 0 {
            assert profiles[k] == restProfiles[k - 1] && idx[k] == rest[k - 1];
          }
        }
      } else {
        assert ProfileFileIndices(home, from) == rest;
      }
    }
  }

  /** One step of GetProfiles on a suffix of the directory. */
  lemma GetProfilesStep(home: seq<string>, from: nat)
    requires from < |home|
    ensures GetProfiles(home[from..]) ==
            (if IsProfileFile(home[from]) then [ProfileName(home[from])] else []) + GetProfiles(home[from + 1..])
  {
    var tail := home[from..];
    assert tail[1..] == home[from + 1..];
  }

  /** There is no profile exactly when no file of the directory is a profile
      file. */
  lemma {:induction false} GetProfilesEmptyIff(home: seq<string>)
    ensures GetProfiles(home) == [] <==> forall f :: f in home ==> !IsProfileFile(f)
  {
    if home != [] {
      GetProfilesEmptyIff(home[1..]);
      assert home == [home[0]] + home[1..];
    }
  }

  /** The profiles of two directory segments are the profiles of each, in
      order. */
  lemma {:induction false} GetProfilesConcat(a: seq<string>, b: seq<string>)
    ensures GetProfiles(a + b) == GetProfiles(a) + GetProfiles(b)
  {
    if a != [] {
      assert (a + b)[1..] == a[1..] + b;
      GetProfilesConcat(a[1..], b);
    } else {
      assert a + b == b;
    }
  }

  /** Every profile file of the directory contributes its name. */
  lemma {:induction false} ProfileFileIsListed(home: seq<string>, file: string)
    requires file in home && IsProfileFile(file)
    ensures ProfileName(file) in GetProfiles(home)
  {
    if home[0] != file {
      ProfileFileIsListed(home[1..], file);
    }
  }

  // ---------------------------------------------------------------------------
  // Profile names and file names
  // ---------------------------------------------------------------------------

  /** ".json" cannot overlap itself: its only '.' is its first character. */
  lemma ExtensionUnbordered()
    ensures Unbordered(Extension)
  {
    forall d | 0 < d < |Extension| ensures !EqualsIgnoreCase(Extension[d..], Extension[..|Extension| - d]) {
      assert Fold(Extension[d..][0]) != Fold(Extension[..|Extension| - d][0]);
    }
  }

  /** A trailing ".json" (in any casing) is dropped without affecting the rest
      of the name. */
  lemma ProfileNameDropsTrailingExtension(x: string, y: string)
    requires EqualsIgnoreCase(y, Extension)
    ensures ProfileName(x + y) == ProfileName(x)
  {
    ExtensionUnbordered();
    RemoveAllDropsTrailing(x, y, Extension);
  }

  /** A file is listed under its own name exactly when it contains no
      ".json" in any casing. */
  lemma ProfileNameUnchangedIff(file: string)
    ensures ProfileName(file) == file <==> FreeOf(file, Extension)
  {
    RemoveAllUnchangedIff(file, Extension);
  }

  /** A profile file contains ".json", so its listed name is never the file
      name: at least the trailing extension is removed. */
  lemma ProfileNameOfProfileFile(file: string)
    requires IsProfileFile(file)
    ensures !FreeOf(file, Extension)
    ensures |ProfileName(file)| <= |file| - |Extension|
  {
    var start := |file| - |Extension|;
    assert file[start..start + |Extension|] == file[start..];
    assert OccursAt(file, Extension, start);
    ExtensionUnbordered();
    RemoveAllShortensAtEnd(file, Extension);
  }

  /** A name free of ".json" is stored as `<name>.json` and listed back as
      itself. */
  lemma ProfileNameRoundTrip(name: string)
    requires FreeOf(name, Extension)
    ensures IsProfileFile(name + Extension)
    ensures ProfileName(name + Extension) == name
  {
    ExtensionUnbordered();
    RemoveAllRoundTrip(name, Extension);
  }

  /** An upper-case extension loses its casing: "A.JSON" is listed as "A". */
  lemma ProfileNameUpperCase()
    ensures IsProfileFile("A.JSON") && ProfileName("A.JSON") == "A"
  {
    assert EqualsIgnoreCase(".JSON", Extension);
    assert "A.JSON" == "A" + ".JSON";
    assert ("A" + ".JSON")[1..] == ".JSON";
    ProfileNameDropsTrailingExtension("A", ".JSON");
  }

  /** A doubled extension loses both copies: "a.json.json" is listed as "a". */
  lemma ProfileNameDoubledExtension()
    ensures IsProfileFile("a.json.json") && ProfileName("a.json.json") == "a"
  {
    assert "a.json.json" == ("a" + Extension) + Extension;
    assert (("a" + Extension) + Extension)[6..] == Extension;
    ProfileNameDropsTrailingExtension("a" + Extension, Extension);
    ProfileNameDropsTrailingExtension("a", Extension);
  }

  /** Removing the occurrence inside "..jsonjson" joins its two sides to
      ".json" again. */
  lemma ProfileNameRejoins()
    ensures ProfileName("..jsonjson") == Extension
  {
    var inner := Extension + "json";
    assert "..jsonjson" == ['.'] + inner;
    assert !OccursAt(['.'] + inner, Extension, 0) by {
      assert (['.'] + inner)[..5][1] == '.';
      assert Fold('.') != Fold(Extension[1]);
    }
    RemoveAllKeepsFirst('.', inner, Extension);
    RemoveAllDropsFirst(Extension, "json", Extension);
    assert ['.'] + "json" == Extension;
  }

  /** A listed name can still contain ".json": the profile file
      "..jsonjson.json" is listed as ".json". */
  lemma ProfileNameCanContainExtension()
    ensures IsProfileFile("..jsonjson.json") && ProfileName("..jsonjson.json") == Extension
  {
    ProfileNameRejoins();
    assert "..jsonjson.json" == "..jsonjson" + Extension;
    assert ("..jsonjson" + Extension)[10..] == Extension;
    ProfileNameDropsTrailingExtension("..jsonjson", Extension);
  }

  // ---------------------------------------------------------------------------
  // GetProfile: the profile to use
  // ---------------------------------------------------------------------------

  /** GetProfile(profileName): fails when there is no profile at all; an
      explicit name must be one of the listed profiles; otherwise the value of
      PULGA_PROFILE wins, unchecked, and the first listed profile is the
      fallback. An empty string stands for an absent (null) name or variable. */
  function GetProfile(home: seq<string>, profileName: string, pulgaProfile: string): (r: Result<string>)
    ensures GetProfiles(home) == [] ==> r == Err(NoProfiles)
    ensures profileName != "" ==> (r.Ok? <==> profileName in GetProfiles(home))
    ensures profileName != "" && r.Ok? ==> r.value == profileName
    ensures profileName != "" && GetProfiles(home) != [] && r.Err? ==> r.error == ProfileNotFound
    ensures profileName == "" ==> (r.Ok? <==> GetProfiles(home) != [])
    ensures r.Ok? && (profileName != "" || pulgaProfile == "") ==> r.value in GetProfiles(home)
    ensures r.Ok? && profileName == "" && pulgaProfile != "" ==> r.value == pulgaProfile
    ensures r.Ok? && profileName == "" && pulgaProfile == "" ==> r.value == GetProfiles(home)[0]
  {
    var profiles := GetProfiles(home);
    if profiles == [] then Err(NoProfiles)
    else if profileName != "" then
      if profileName in profiles then Ok(profileName) else Err(ProfileNotFound)
    else if pulgaProfile != "" then Ok(pulgaProfile)
    else Ok(profiles[0])
  }

  /** Without a single profile file, resolution fails whatever is asked and
      whatever PULGA_PROFILE says. */
  lemma GetProfileWithoutProfileFiles(home: seq<string>, profileName: string, pulgaProfile: string)
    requires forall f :: f in home ==> !IsProfileFile(f)
    ensures GetProfile(home, profileName, pulgaProfile) == Err(NoProfiles)
  {
    GetProfilesEmptyIff(home);
  }

  /** A directory holding the one file `<name>.json` resolves to `name`, asked
      for by name or by default. */
  lemma GetProfileSingleFile(name: string, pulgaProfile: string)
    requires FreeOf(name, Extension)
    ensures GetProfile([name + Extension], "", "") == Ok(name)
    ensures name != "" ==> GetProfile([name + Extension], name, pulgaProfile) == Ok(name)
  {
    ProfileNameRoundTrip(name);
    assert [name + Extension][1..] == [];
  }

  /** With "A.json" and "B.json": "A" is found, "C" is not, no name gives the
      first file's profile (there is no ambiguity error), and PULGA_PROFILE=Z
      gives "Z" although there is no "Z.json". */
  lemma GetProfileExamples()
    ensures GetProfile(["A.json", "B.json"], "A", "") == Ok("A")
    ensures GetProfile(["A.json", "B.json"], "C", "") == Err(ProfileNotFound)
    ensures GetProfile(["A.json", "B.json"], "", "") == Ok("A")
    ensures GetProfile(["A.json", "B.json"], "", "Z") == Ok("Z") && "Z" + Extension !in ["A.json", "B.json"]
  {
    ListingOfTwoLetters();
    assert "C" != "A" && "C" != "B";
    assert "Z" + Extension !in ["A.json", "B.json"] by {
      assert ("Z" + Extension)[0] != "A.json"[0] && ("Z" + Extension)[0] != "B.json"[0];
    }
  }

  /** "A.json" and "B.json" are listed as "A" and "B". */
  lemma ListingOfTwoLetters()
    ensures GetProfiles(["A.json", "B.json"]) == ["A", "B"]
  {
    assert IsProfileFile("A.json") && ProfileName("A.json") == "A" by {
      ShortStemFile("A", Extension);
      assert "A" + Extension == "A.json";
    }
    assert IsProfileFile("B.json") && ProfileName("B.json") == "B" by {
      ShortStemFile("B", Extension);
      assert "B" + Extension == "B.json";
    }
    GetProfilesOfTwo("A.json", "B.json");
  }

  // ---------------------------------------------------------------------------
  // List: the listing with the current profile marked
  // ---------------------------------------------------------------------------

  /** The rows of the List table: each profile, the one equal to the current
      profile followed by " (current profile)". */
  function Annotate(profiles: seq<string>, current: string): (rows: seq<string>)
    ensures |rows| == |profiles|
    ensures forall k :: 0 <= k < |rows| ==>
              rows[k] == profiles[k] + (if profiles[k] == current then CurrentMarker else "")
  {
    if profiles == [] then []
    else [profiles[0] + (if profiles[0] == current then CurrentMarker else "")] + Annotate(profiles[1..], current)
  }

  /** A current profile that is not listed (an unchecked PULGA_PROFILE value)
      marks no row. */
  lemma AnnotateWithoutCurrent(profiles: seq<string>, current: string)
    ensures current !in profiles ==> Annotate(profiles, current) == profiles
  {
    if current !in profiles {
      var rows := Annotate(profiles, current);
      forall k | 0 <= k < |rows| ensures rows[k] == profiles[k] {
        assert profiles[k] + "" == profiles[k];
      }
    }
  }

  /** In a listing without repeated names at most one row is marked. */
  lemma AnnotateMarksAtMostOne(profiles: seq<string>, current: string, k: nat, l: nat)
    requires Distinct(profiles)
    requires k < l < |profiles|
    ensures Annotate(profiles, current)[k] == profiles[k] || Annotate(profiles, current)[l] == profiles[l]
  {
    var rows := Annotate(profiles, current);
    if profiles[k] == current {
      assert profiles[l] != current;
      assert rows[l] == profiles[l] + "";
    } else {
      assert rows[k] == profiles[k] + "";
    }
  }

  /** Listed names can repeat even though file names cannot: "a.json" and
      "a.JSON" are both listed as "a", that name is the default profile, and
      List then marks both rows as the current profile. */
  lemma ListedNamesCanRepeat()
    ensures Distinct(["a.json", "a.JSON"])
    ensures GetProfiles(["a.json", "a.JSON"]) == ["a", "a"]
    ensures GetProfile(["a.json", "a.JSON"], "", "") == Ok("a")
    ensures Annotate(GetProfiles(["a.json", "a.JSON"]), "a") == ["a" + CurrentMarker, "a" + CurrentMarker]
  {
    ListingOfSameStem();
    assert Distinct(["a.json", "a.JSON"]) by {
      assert "a.json"[2] != "a.JSON"[2];
    }
    var rows := Annotate(["a", "a"], "a");
    assert rows[0] == "a" + CurrentMarker && rows[1] == "a" + CurrentMarker;
  }

  /** "a.json" and "a.JSON" are both listed as "a". */
  lemma ListingOfSameStem()
    ensures GetProfiles(["a.json", "a.JSON"]) == ["a", "a"]
  {
    assert EqualsIgnoreCase(".JSON", Extension);
    ShortStemFile("a", ".json");
    ShortStemFile("a", ".JSON");
    assert "a" + ".json" == "a.json";
    assert "a" + ".JSON" == "a.JSON";
    GetProfilesOfTwo("a.json", "a.JSON");
  }

  /** A stem shorter than ".json", followed by ".json" in any casing, is a
      profile file listed as the stem. */
  lemma ShortStemFile(stem: string, y: string)
    requires |stem| < |Extension| && EqualsIgnoreCase(y, Extension)
    ensures IsProfileFile(stem + y) && ProfileName(stem + y) == stem
  {
    assert (stem + y)[|stem|..] == y;
    ProfileNameDropsTrailingExtension(stem, y);
  }

  // ---------------------------------------------------------------------------
  // Delete
  // ---------------------------------------------------------------------------

  /** The guards of Delete(profileName), in the order they run: not the
      current profile, then resolution of the name, then presence of the exact
      file `<name>.json`. Pass means the file is deleted. */
  function DeleteCheck(home: seq<string>, pulgaProfile: string, current: string, profileName: string): (r: Outcome)
    ensures profileName == current ==> r == Fail(CannotDeleteCurrent)
    ensures r == Pass <==>
              profileName != current &&
              GetProfile(home, profileName, pulgaProfile).Ok? &&
              profileName + Extension in home
    ensures profileName != "" && profileName != current && profileName !in GetProfiles(home) ==>
              r == Fail(if GetProfiles(home) == [] then NoProfiles else ProfileNotFound)
    ensures (profileName != current && GetProfile(home, profileName, pulgaProfile).Ok? &&
             profileName + Extension !in home) ==> r == Fail(FileMissing)
  {
    if profileName == current then Fail(CannotDeleteCurrent)
    else match GetProfile(home, profileName, pulgaProfile)
      case Err(e) => Fail(e)
      case Ok(_) => if profileName + Extension in home then Pass else Fail(FileMissing)
  }

  /** For a name free of ".json" whose file is present, only the
      current-profile guard can refuse the deletion. */
  lemma DeleteCheckCleanName(home: seq<string>, pulgaProfile: string, current: string, name: string)
    requires FreeOf(name, Extension)
    requires name + Extension in home
    ensures DeleteCheck(home, pulgaProfile, current, name) ==
            if name == current then Fail(CannotDeleteCurrent) else Pass
  {
    ProfileNameRoundTrip(name);
    ProfileFileIsListed(home, name + Extension);
  }

  /** The profiles of a two-file directory. */
  lemma GetProfilesOfTwo(a: string, b: string)
    requires IsProfileFile(a) && IsProfileFile(b)
    ensures GetProfiles([a, b]) == [ProfileName(a), ProfileName(b)]
  {
    assert [a, b] == [a] + [b];
    GetProfilesConcat([a], [b]);
    assert [a][1..] == [] && [b][1..] == [];
  }

  /** "A.JSON" is listed as "A", yet deleting "A" finds no "A.json". */
  lemma DeleteCheckUpperCaseMissing()
    ensures GetProfiles(["A.JSON", "b.json"]) == ["A", "b"]
    ensures DeleteCheck(["A.JSON", "b.json"], "", "b", "A") == Fail(FileMissing)
  {
    ProfileNameUpperCase();
    ListedWithB("A.JSON", "A");
    assert "A" + Extension !in ["A.JSON", "b.json"] by {
      assert ("A" + Extension)[2] != "A.JSON"[2];
      assert ("A" + Extension)[0] != "b.json"[0];
    }
  }

  /** "a.json.json" is listed as "a", yet deleting "a" finds no "a.json". */
  lemma DeleteCheckDoubledMissing()
    ensures GetProfiles(["a.json.json", "b.json"]) == ["a", "b"]
    ensures DeleteCheck(["a.json.json", "b.json"], "", "b", "a") == Fail(FileMissing)
  {
    ProfileNameDoubledExtension();
    ListedWithB("a.json.json", "a");
    assert "a" + Extension !in ["a.json.json", "b.json"] by {
      assert |"a" + Extension| != |"a.json.json"|;
      assert ("a" + Extension)[0] != "b.json"[0];
    }
  }

  /** A directory of `file`, listed as `name`, and "b.json". */
  lemma ListedWithB(file: string, name: string)
    requires IsProfileFile(file) && ProfileName(file) == name
    ensures GetProfiles([file, "b.json"]) == [name, "b"]
  {
    assert IsProfileFile("b.json") && ProfileName("b.json") == "b" by {
      ShortStemFile("b", Extension);
      assert "b" + Extension == "b.json";
    }
    GetProfilesOfTwo(file, "b.json");
  }

  /** The current-profile guard compares names, not files: with
      "a.json.json" (listed as "a", the current profile) and "a..jsonjson.json"
      (listed as "a.json"), deleting "a.json" passes every guard and removes
      "a.json.json", the file the current profile was listed from. */
  lemma DeleteCheckCanRemoveCurrentFile()
    ensures GetProfile(["a.json.json", "a..jsonjson.json"], "", "") == Ok("a")
    ensures DeleteCheck(["a.json.json", "a..jsonjson.json"], "", "a", "a.json") == Pass
    ensures DeleteFile(["a.json.json", "a..jsonjson.json"], "a.json" + Extension) == ["a..jsonjson.json"]
    ensures "a" !in GetProfiles(["a..jsonjson.json"])
  {
    var other := "a..jsonjson.json";
    ListingOfDoubledPair();
    assert "a.json" + Extension == "a.json.json";
    assert "a.json" != "a";
    assert GetProfile(["a.json.json", other], "a.json", "") == Ok("a.json");
    ProfileNameInnerOccurrence();
    assert GetProfiles([other]) == ["a.json"] by {
      assert [other][1..] == [];
    }
  }

  /** "a.json.json" and "a..jsonjson.json" are listed as "a" and "a.json". */
  lemma ListingOfDoubledPair()
    ensures GetProfiles(["a.json.json", "a..jsonjson.json"]) == ["a", "a.json"]
  {
    ProfileNameDoubledExtension();
    ProfileNameInnerOccurrence();
    GetProfilesOfTwo("a.json.json", "a..jsonjson.json");
  }

  /** "a..jsonjson.json" is a profile file listed as "a.json". */
  lemma ProfileNameInnerOccurrence()
    ensures IsProfileFile("a..jsonjson.json") && ProfileName("a..jsonjson.json") == "a.json"
  {
    var stem := ['a'] + "..jsonjson";
    ProfileNameWithLeadingLetter();
    assert "a..jsonjson.json" == stem + Extension;
    assert (stem + Extension)[11..] == Extension;
    ProfileNameDropsTrailingExtension(stem, Extension);
  }

  /** The stem of "a..jsonjson.json" is listed as "a.json". */
  lemma ProfileNameWithLeadingLetter()
    ensures ProfileName(['a'] + "..jsonjson") == "a.json"
  {
    ProfileNameRejoins();
    assert !OccursAt(['a'] + "..jsonjson", Extension, 0) by {
      assert (['a'] + "..jsonjson")[..5][0] == 'a';
      assert Fold('a') != Fold(Extension[0]);
    }
    RemoveAllKeepsFirst('a', "..jsonjson", Extension);
    assert ['a'] + Extension == "a.json";
  }

  /** The listing around one profile file: the profiles before it, its
      name, and the profiles after it; without the file, only the two
      outer parts. */
  lemma GetProfilesAround(before: seq<string>, file: string, after: seq<string>)
    requires IsProfileFile(file)
    ensures GetProfiles(before + [file] + after) == GetProfiles(before) + [ProfileName(file)] + GetProfiles(after)
    ensures GetProfiles(before + after) == GetProfiles(before) + GetProfiles(after)
  {
    assert before + [file] + after == before + ([file] + after);
    GetProfilesConcat(before, [file] + after);
    GetProfilesHead(file, after);
    GetProfilesConcat(before, after);
  }

  /** A listing that starts with a profile file starts with its name. */
  lemma GetProfilesHead(file: string, after: seq<string>)
    requires IsProfileFile(file)
    ensures GetProfiles([file] + after) == [ProfileName(file)] + GetProfiles(after)
  {
    var rest := [file] + after;
    assert rest[0] == file && rest[1..] == after;
  }

  /** Deleting a profile file takes its one name out of the listing: the
      profiles listed before and after the file stay, in order. */
  lemma DeleteProfileFile(home: seq<string>, file: string)
    requires IsProfileFile(file) && file in home
    ensures var i := IndexOf(home, file);
            GetProfiles(home) == GetProfiles(home[..i]) + [ProfileName(file)] + GetProfiles(home[i + 1..]) &&
            GetProfiles(DeleteFile(home, file)) == GetProfiles(home[..i]) + GetProfiles(home[i + 1..])
  {
    var i := IndexOf(home, file);
    var before, after := home[..i], home[i + 1..];
    assert home == before + [file] + after;
    assert DeleteFile(home, file) == before + after by {
      DeleteFileAt(home, file);
    }
    GetProfilesAround(before, file, after);
  }

  /** Deleting the file `<name>.json` of a name free of ".json" (the file
      every successful deletion removes) takes exactly `name` out of the
      listing. */
  lemma DeleteKeepsOtherProfiles(home: seq<string>, name: string)
    requires FreeOf(name, Extension)
    requires name + Extension in home
    ensures var i := IndexOf(home, name + Extension);
            GetProfiles(home) == GetProfiles(home[..i]) + [name] + GetProfiles(home[i + 1..]) &&
            GetProfiles(DeleteFile(home, name + Extension)) == GetProfiles(home[..i]) + GetProfiles(home[i + 1..])
  {
    ProfileNameRoundTrip(name);
    DeleteProfileFile(home, name + Extension);
  }

  // ---------------------------------------------------------------------------
  // The operations object
  // ---------------------------------------------------------------------------

  /** ProfileOperations: the home directory, the PULGA_PROFILE value of the
      process, and CurrentProfile, which the constructor sets. */
  class ProfileOperations {
    var home: seq<string>
    const pulgaProfile: string
    var currentProfile: string

    /** The directory's file names are distinct. */
    ghost predicate Valid()
      reads this
    {
      Distinct(home)
    }

    /** ProfileOperations(givenProfile): CurrentProfile is the resolved
        profile. A failing resolution exits the process before any object
        exists; the caller, App.ProfileCommand, takes that path. */
    constructor (home: seq<string>, pulgaProfile: string, givenProfile: string)
      requires Distinct(home)
      requires GetProfile(home, givenProfile, pulgaProfile).Ok?
      ensures Valid()
      ensures this.home == home && this.pulgaProfile == pulgaProfile
      ensures currentProfile == GetProfile(home, givenProfile, pulgaProfile).value
    {
      this.home := home;
      this.pulgaProfile := pulgaProfile;
      currentProfile := GetProfile(home, givenProfile, pulgaProfile).value;
    }

    /** The rows List renders. */
    function Listing(): (rows: seq<string>)
      reads this
      ensures |rows| == |GetProfiles(home)|
      ensures forall k :: 0 <= k < |rows| ==>
                rows[k] == GetProfiles(home)[k] + (if GetProfiles(home)[k] == currentProfile then CurrentMarker else "")
      ensures currentProfile !in GetProfiles(home) ==> rows == GetProfiles(home)
    {
      AnnotateWithoutCurrent(GetProfiles(home), currentProfile);
      Annotate(GetProfiles(home), currentProfile)
    }

    /** Delete(profileName): refuses the current profile, re-runs the
        resolution of the name, refuses a missing `<name>.json`, and only then
        deletes that one file. */
    method Delete(profileName: string) returns (r: Outcome)
      requires Valid()
      modifies this`home
      ensures Valid()
      ensures r == DeleteCheck(old(home), pulgaProfile, currentProfile, profileName)
      ensures home == if r.Pass? then DeleteFile(old(home), profileName + Extension) else old(home)
    {
      if profileName == currentProfile {
        return Fail(CannotDeleteCurrent);
      }
      var resolved := GetProfile(home, profileName, pulgaProfile);
      if resolved.Err? {
        return Fail(resolved.error);
      }
      var profilePath := profileName + Extension;
      if profilePath !in home {
        return Fail(FileMissing);
      }
      DeleteFileKeepsOthers(home, profilePath);
      home := DeleteFile(home, profilePath);
      return Pass;
    }
  }
}

