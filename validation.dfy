/** The two input validators of the improved generator
    (generate_cloudbuild_improved.py): the Terraform version check, the
    workspace-name sanitiser, the per-list validation that
    generate_cloudbuild_config applies, and the parsing that `main` does on
    the WORKSPACES variable. */
module Validation {
  import opened Common

  datatype ConfigError =
    | InvalidTfVersion(version: string)
    | EmptyWorkspaceName
    | InvalidWorkspaceName(sanitised: string)
    | MissingWorkspaces
    | NoWorkspaces

  // ---------------------------------------------------------------------------
  // Terraform version: two or three dot-separated digit runs
  // (generate_cloudbuild_improved.py:36-40)

  /** The language of `\d+\.\d+(\.\d+)?`, written as the regular expression
      reads: two or three non-empty digit runs separated by dots. */
  ghost predicate VersionPattern(v: string) {
    (exists major, minor :: IsDigits(major) && IsDigits(minor) && v == major + "." + minor)
    || (exists major, minor, patch ::
          IsDigits(major) && IsDigits(minor) && IsDigits(patch) &&
          v == major + "." + minor + "." + patch)
  }

  /** Executable matcher: split on '.', then two or three digit fields. */
  predicate VersionFieldsOk(v: string) {
    var fields := Split(v, '.');
    (|fields| == 2 || |fields| == 3) && forall i :: 0 <= i < |fields| ==> IsDigits(fields[i])
  }

  lemma DigitsHaveNoDot(s: string)
    requires IsDigits(s)
    ensures '.' !in s
  {
  }

  lemma SplitTwoVersionFields(major: string, minor: string)
    requires IsDigits(major) && IsDigits(minor)
    ensures Split(major + "." + minor, '.') == [major, minor]
  {
    DigitsHaveNoDot(major);
    DigitsHaveNoDot(minor);
    var fs := [major, minor];
    assert Join(fs, '.') == major + "." + minor;
    SplitJoin(fs, '.');
  }

  lemma SplitThreeVersionFields(major: string, minor: string, patch: string)
    requires IsDigits(major) && IsDigits(minor) && IsDigits(patch)
    ensures Split(major + "." + minor + "." + patch, '.') == [major, minor, patch]
  {
    DigitsHaveNoDot(major);
    DigitsHaveNoDot(minor);
    DigitsHaveNoDot(patch);
    var fs := [major, minor, patch];
    assert Join(fs[1..], '.') == minor + "." + patch;
    assert Join(fs, '.') == major + "." + minor + "." + patch;
    SplitJoin(fs, '.');
  }

  lemma VersionFieldsGivePattern(v: string)
    requires VersionFieldsOk(v)
    ensures VersionPattern(v)
  {
    var fields := Split(v, '.');
    JoinSplit(v, '.');
    if |fields| == 2 {
      assert Join(fields, '.') == fields[0] + "." + fields[1];
      assert IsDigits(fields[0]) && IsDigits(fields[1]);
    } else {
      assert Join(fields[1..], '.') == fields[1] + "." + fields[2];
      assert Join(fields, '.') == fields[0] + "." + fields[1] + "." + fields[2];
      assert IsDigits(fields[0]) && IsDigits(fields[1]) && IsDigits(fields[2]);
    }
  }

  lemma PatternGivesVersionFields(v: string)
    requires VersionPattern(v)
    ensures VersionFieldsOk(v)
  {
    if exists major, minor :: IsDigits(major) && IsDigits(minor) && v == major + "." + minor {
      var major, minor :| IsDigits(major) && IsDigits(minor) && v == major + "." + minor;
      SplitTwoVersionFields(major, minor);
    } else {
      var major, minor, patch :|
        IsDigits(major) && IsDigits(minor) && IsDigits(patch) &&
        v == major + "." + minor + "." + patch;
      SplitThreeVersionFields(major, minor, patch);
    }
  }

  lemma VersionFieldsMatchPattern(v: string)
    ensures VersionFieldsOk(v) <==> VersionPattern(v)
  {
    if VersionFieldsOk(v) { VersionFieldsGivePattern(v); }
    if VersionPattern(v) { PatternGivesVersionFields(v); }
  }

  lemma VersionCheckMatchesPattern(v: string)
    ensures VersionFieldsOk(v) <==> VersionPattern(v)
    ensures |v| > 0 ==> (VersionFieldsOk(v[..|v| - 1]) <==> VersionPattern(v[..|v| - 1]))
  {
    VersionFieldsMatchPattern(v);
    if |v| > 0 { VersionFieldsMatchPattern(v[..|v| - 1]); }
  }

  /** _validate_tf_version. Python's `$` also matches just before one
      trailing newline, so "1.8\n" is accepted and returned unchanged. */
  function ValidateTfVersion(v: string): (r: Result<string, ConfigError>)
    ensures r.Success? ==> r.value == v
    ensures r.Failure? ==> r.error == InvalidTfVersion(v)
    ensures r.Success? <==>
      VersionPattern(v) || (|v| > 0 && v[|v| - 1] == '\n' && VersionPattern(v[..|v| - 1]))
  {
    VersionCheckMatchesPattern(v);
    if VersionFieldsOk(v) || (|v| > 0 && v[|v| - 1] == '\n' && VersionFieldsOk(v[..|v| - 1]))
    then Success(v)
    else Failure(InvalidTfVersion(v))
  }

  lemma TwoPartVersionAccepted()
    ensures ValidateTfVersion("1.8") == Success("1.8")
  {
    SplitTwoVersionFields("1", "8");
    assert "1" + "." + "8" == "1.8";
  }

  lemma ThreePartVersionAccepted()
    ensures ValidateTfVersion("1.11.0") == Success("1.11.0")
  {
    SplitThreeVersionFields("1", "11", "0");
    assert "1" + "." + "11" + "." + "0" == "1.11.0";
  }

  /** Python's `$` lets one trailing newline through. */
  lemma TrailingNewlineAccepted()
    ensures ValidateTfVersion("1.8\n") == Success("1.8\n")
  {
    assert "1.8\n"[..3] == "1.8";
    TwoPartVersionAccepted();
  }

  lemma SingleNumberRejected()
    ensures ValidateTfVersion("1").Failure?
  {
    SplitField("1", '.');
  }

  lemma FourPartVersionRejected(v: string)
    requires v == "1.8.0.1"
    ensures ValidateTfVersion(v).Failure?
  {
    var fs := ["1", "8", "0", "1"];
    SplitJoin(fs, '.');
    assert Join(fs, '.') == v;
    var gs := ["1", "8", "0", ""];
    SplitJoin(gs, '.');
    assert Join(gs, '.') == v[..|v| - 1];
  }

  lemma PrefixedVersionRejected()
    ensures ValidateTfVersion("v1.8").Failure?
  {
    SplitJoin(["v1", "8"], '.');
    assert Join(["v1", "8"], '.') == "v1.8";
    assert !IsDigit("v1"[0]);
    assert "v1.8"[..3] == "v1.";
    SplitJoin(["v1", ""], '.');
    assert Join(["v1", ""], '.') == "v1.";
  }

  // ---------------------------------------------------------------------------
  // Workspace names: _validate_workspace_name

  const MaxNameLength: nat := 63

  /** str.lower() on one ASCII character. */
  function ToLower(c: char): (d: char)
    ensures IsUpper(c) ==> d as int == c as int + 32 && 'a' <= d <= 'z'
    ensures !IsUpper(c) ==> d == c
  {
    if IsUpper(c) then (c as int + 32) as char else c
  }

  /** Characters the substitution leaves alone: ASCII letters, digits, `-`
      and `_`; every other character becomes `-`. The upper-case test
      mirrors the `A-Z` of the character class, although after lower() no
      upper-case letter reaches it. */
  predicate KeptBySubstitution(c: char) {
    'a' <= c <= 'z' || IsUpper(c) || IsDigit(c) || c == '-' || c == '_'
  }

  /** The per-character effect of lower() followed by the substitution. */
  function SanitiseChar(c: char): (d: char)
    ensures IsLowerAlnum(d) || d == '-' || d == '_'
    ensures IsLowerAlnum(c) || c == '-' || c == '_' ==> d == c
    ensures IsUpper(c) ==> d == ToLower(c)
    ensures !KeptBySubstitution(ToLower(c)) ==> d == '-'
  {
    var l := ToLower(c);
    if KeptBySubstitution(l) then l else '-'
  }

  /** strip(), lower(), substitution and the cut to 63 characters, before
      the final pattern check. */
  function Sanitise(raw: string): (r: string)
    ensures |r| <= MaxNameLength
  {
    var s := Strip(raw);
    var mapped := seq(|s|, i requires 0 <= i < |s| => SanitiseChar(s[i]));
    if |mapped| > MaxNameLength then mapped[..MaxNameLength] else mapped
  }

  /** The sanitised name has the length of the stripped name, cut to 63, and
      each of its characters is the sanitised character at the same place. */
  lemma SanitiseSpec(raw: string)
    ensures |Sanitise(raw)| == Min(|Strip(raw)|, MaxNameLength)
    ensures forall i :: 0 <= i < |Sanitise(raw)| ==> Sanitise(raw)[i] == SanitiseChar(Strip(raw)[i])
  {
  }

  /** The final check on a sanitised name: it starts and ends with a
      lower-case letter or digit, and has only those and `-` in between. */
  predicate SlotPattern(s: string) {
    |s| > 0 && IsLowerAlnum(s[0]) && IsLowerAlnum(s[|s| - 1]) &&
    forall i :: 0 < i < |s| - 1 ==> IsLowerAlnum(s[i]) || s[i] == '-'
  }

  /** A valid slot id: the pattern and the GCP length limit. */
  predicate IsSlotName(s: string) {
    SlotPattern(s) && |s| <= MaxNameLength
  }

  function ValidateWorkspaceName(raw: string): (r: Result<string, ConfigError>)
    ensures r == Failure(EmptyWorkspaceName) <==> raw == []
    ensures r.Success? ==> |r.value| <= MaxNameLength
  {
    if raw == [] then Failure(EmptyWorkspaceName)
    else
      var s := Sanitise(raw);
      if SlotPattern(s) then Success(s) else Failure(InvalidWorkspaceName(s))
  }

  /** _validate_workspace_name: an empty name is refused outright; otherwise
      the name is accepted exactly when its sanitised form matches the slot
      pattern, and the result is that sanitised form, which is then a slot
      name; a refusal carries the sanitised form. */
  lemma ValidateWorkspaceNameSpec(raw: string)
    ensures raw == [] ==> ValidateWorkspaceName(raw) == Failure(EmptyWorkspaceName)
    ensures ValidateWorkspaceName(raw).Success? ==>
      IsSlotName(ValidateWorkspaceName(raw).value) && ValidateWorkspaceName(raw).value == Sanitise(raw)
    ensures raw != [] ==> (ValidateWorkspaceName(raw).Success? <==> SlotPattern(Sanitise(raw)))
    ensures ValidateWorkspaceName(raw).Failure? && raw != [] ==>
      ValidateWorkspaceName(raw).error == InvalidWorkspaceName(Sanitise(raw))
  {
    SanitiseSpec(raw);
  }

  /** The valid slot ids are exactly the fixed points of the validator. */
  lemma SlotNamesAreFixedPoints(s: string)
    ensures ValidateWorkspaceName(s) == Success(s) <==> IsSlotName(s)
  {
    if IsSlotName(s) {
      assert !IsSpace(s[0]) && !IsSpace(s[|s| - 1]);
      StripKeepsTrimmed(s);
      var t := Sanitise(s);
      assert |t| == |s|;
      forall i | 0 <= i < |s| ensures t[i] == s[i] {
        assert IsLowerAlnum(s[i]) || s[i] == '-';
      }
      assert t == s;
    }
  }

  /** Validating an already-validated name returns it unchanged. */
  lemma ValidateIdempotent(raw: string)
    requires ValidateWorkspaceName(raw).Success?
    ensures ValidateWorkspaceName(ValidateWorkspaceName(raw).value) == ValidateWorkspaceName(raw)
  {
    SlotNamesAreFixedPoints(ValidateWorkspaceName(raw).value);
  }

  /** Any underscore that survives the cut to 63 characters is rejected: the
      substitution keeps '_' but the final pattern does not allow it. */
  lemma UnderscoreRejected(raw: string, i: nat)
    requires i < Min(|Strip(raw)|, MaxNameLength) && Strip(raw)[i] == '_'
    ensures ValidateWorkspaceName(raw).Failure?
  {
    SanitiseSpec(raw);
    var s := Sanitise(raw);
    assert s[i] == SanitiseChar(Strip(raw)[i]) == '_';
    assert !IsLowerAlnum(s[i]) && s[i] != '-';
  }

  /** A cut at 63 characters that ends on '-' or '_' is rejected. */
  lemma TruncationToSeparatorRejected(raw: string)
    requires |Strip(raw)| > MaxNameLength
    requires SanitiseChar(Strip(raw)[MaxNameLength - 1]) in "-_"
    ensures ValidateWorkspaceName(raw).Failure?
  {
    var s := Sanitise(raw);
    assert |s| == MaxNameLength;
    assert s[|s| - 1] == SanitiseChar(Strip(raw)[MaxNameLength - 1]);
  }

  /** A capitalised name with a space: "Staging 1" becomes "staging-1". */
  lemma StagingExample()
    ensures ValidateWorkspaceName("Staging 1") == Success("staging-1")
  {
    var raw := "Staging 1";
    StripKeepsTrimmed(raw);
    var s := Sanitise(raw);
    assert |s| == 9;
    forall i | 0 <= i < 9 ensures s[i] == "staging-1"[i] {
      assert s[i] == SanitiseChar(raw[i]);
    }
    assert s == "staging-1";
  }

  /** Validation looks only at the stripped form of a non-empty name. */
  lemma ValidationSeesStrippedName(a: string, b: string)
    requires a != [] && b != [] && Strip(a) == Strip(b)
    ensures ValidateWorkspaceName(a) == ValidateWorkspaceName(b)
  {
    var sa, sb := Sanitise(a), Sanitise(b);
    assert |sa| == |sb|;
    assert forall i :: 0 <= i < |sa| ==> sa[i] == sb[i];
    assert sa == sb;
  }

  lemma PaddedDevStrips()
    ensures Strip("  dev  ") == Strip("dev")
  {
    StripPadded("  ", "dev", "  ");
    assert "  " + "dev" + "  " == "  dev  ";
    StripKeepsTrimmed("dev");
  }

  lemma PaddedNameTrimmed(raw: string)
    requires raw == "  dev  "
    ensures ValidateWorkspaceName(raw) == Success("dev")
  {
    PaddedDevStrips();
    ValidationSeesStrippedName(raw, "dev");
    SlotNamesAreFixedPoints("dev");
  }

  lemma UnderscoreExample()
    ensures ValidateWorkspaceName("my_ws").Failure?
  {
    StripKeepsTrimmed("my_ws");
    UnderscoreRejected("my_ws", 2);
  }

  lemma BlankNameRejected()
    ensures ValidateWorkspaceName("   ") == Failure(InvalidWorkspaceName(""))
  {
    assert Strip("   ") == [];
  }

  // ---------------------------------------------------------------------------
  // Checking every name of a list in order (generate_cloudbuild_improved.py:465)

  /** A per-name check applied to every name in order, as a list
      comprehension over a raising check behaves: the first rejection is the
      one raised, and on success the checked names come out in order. */
  function CheckAll(ws: seq<string>, check: string -> Result<string, ConfigError>): (r: Result<seq<string>, ConfigError>)
    ensures r.Success? ==> |r.value| == |ws|
    decreases |ws|
  {
    if ws == [] then Success([])
    else
      match CheckAll(ws[..|ws| - 1], check)
      case Failure(e) => Failure(e)
      case Success(prefix) =>
        match check(ws[|ws| - 1])
        case Failure(e) => Failure(e)
        case Success(name) => Success(prefix + [name])
  }

  /** The list is accepted exactly when every name is; on acceptance it holds
      each name's checked form in order; on rejection the error is that of
      the first rejected name. */
  lemma CheckAllSpec(ws: seq<string>, check: string -> Result<string, ConfigError>)
    ensures CheckAll(ws, check).Success? <==> forall i :: 0 <= i < |ws| ==> check(ws[i]).Success?
    ensures CheckAll(ws, check).Success? ==>
      forall i :: 0 <= i < |ws| ==> check(ws[i]) == Success(CheckAll(ws, check).value[i])
    ensures CheckAll(ws, check).Failure? ==>
      exists i :: 0 <= i < |ws| &&
        check(ws[i]) == Failure(CheckAll(ws, check).error) &&
        forall j :: 0 <= j < i ==> check(ws[j]).Success?
  {
    if CheckAll(ws, check).Success? {
      forall i | 0 <= i < |ws| ensures check(ws[i]) == Success(CheckAll(ws, check).value[i]) {
        CheckAllAt(ws, check, i);
      }
    }
    CheckAllComplete(ws, check);
    CheckAllFirstFailure(ws, check);
  }

  /** One step on an accepted list: its front was accepted, and so was its
      last name, whose checked form is appended. */
  lemma CheckAllLast(ws: seq<string>, check: string -> Result<string, ConfigError>)
    requires ws != [] && CheckAll(ws, check).Success?
    ensures CheckAll(ws[..|ws| - 1], check).Success? && check(ws[|ws| - 1]).Success?
    ensures CheckAll(ws, check).value ==
      CheckAll(ws[..|ws| - 1], check).value + [check(ws[|ws| - 1]).value]
  {
  }

  lemma {:induction false} CheckAllAt(ws: seq<string>, check: string -> Result<string, ConfigError>, i: nat)
    requires i < |ws| && CheckAll(ws, check).Success?
    ensures check(ws[i]) == Success(CheckAll(ws, check).value[i])
    decreases |ws|
  {
    var n := |ws| - 1;
    var front := ws[..n];
    CheckAllLast(ws, check);
    if i < n {
      CheckAllAt(front, check, i);
      assert front[i] == ws[i];
    }
  }

  /** A list whose every name is accepted is accepted. */
  lemma {:induction false} CheckAllComplete(ws: seq<string>, check: string -> Result<string, ConfigError>)
    ensures (forall i :: 0 <= i < |ws| ==> check(ws[i]).Success?) ==> CheckAll(ws, check).Success?
    decreases |ws|
  {
    if ws != [] && forall i :: 0 <= i < |ws| ==> check(ws[i]).Success? {
      var front := ws[..|ws| - 1];
      forall i | 0 <= i < |front| ensures check(front[i]).Success? {
        assert front[i] == ws[i];
      }
      CheckAllComplete(front, check);
    }
  }

  /** A rejected list carries the error of its first rejected name. */
  lemma {:induction false} CheckAllFirstFailure(ws: seq<string>, check: string -> Result<string, ConfigError>)
    ensures CheckAll(ws, check).Failure? ==>
      exists i :: 0 <= i < |ws| &&
        check(ws[i]) == Failure(CheckAll(ws, check).error) &&
        forall j :: 0 <= j < i ==> check(ws[j]).Success?
    decreases |ws|
  {
    if ws != [] && CheckAll(ws, check).Failure? {
      var n := |ws| - 1;
      var front := ws[..n];
      var e := CheckAll(ws, check).error;
      if CheckAll(front, check).Failure? {
        CheckAllFirstFailure(front, check);
        var i :| 0 <= i < |front| && check(front[i]) == Failure(e) &&
          forall j :: 0 <= j < i ==> check(front[j]).Success?;
        forall j | 0 <= j <= i ensures ws[j] == front[j] { }
        assert check(ws[i]) == Failure(e);
      } else {
        forall j | 0 <= j < n ensures check(ws[j]).Success? {
          CheckAllAt(front, check, j);
          assert ws[j] == front[j];
        }
        assert check(ws[n]) == Failure(e);
      }
    }
  }

  /** Extending an accepted prefix by an accepted name appends its checked
      form. */
  lemma CheckAllSnoc(ws: seq<string>, check: string -> Result<string, ConfigError>, i: nat)
    requires i < |ws| && CheckAll(ws[..i], check).Success? && check(ws[i]).Success?
    ensures CheckAll(ws[..i + 1], check) == Success(CheckAll(ws[..i], check).value + [check(ws[i]).value])
  {
    var p := ws[..i + 1];
    assert p[..|p| - 1] == ws[..i] && p[|p| - 1] == ws[i];
  }

  /** An accepted prefix followed by a rejected name rejects with its error. */
  lemma CheckAllSnocFailure(ws: seq<string>, check: string -> Result<string, ConfigError>, i: nat)
    requires i < |ws| && CheckAll(ws[..i], check).Success? && check(ws[i]).Failure?
    ensures CheckAll(ws[..i + 1], check) == Failure(check(ws[i]).error)
  {
    var p := ws[..i + 1];
    assert p[..|p| - 1] == ws[..i] && p[|p| - 1] == ws[i];
  }

  /** Once a prefix of the list is rejected, the whole list is rejected with
      the same error: later names are never looked at. */
  lemma {:induction false} CheckAllPrefixFailure(ws: seq<string>, check: string -> Result<string, ConfigError>, k: nat)
    requires k <= |ws| && CheckAll(ws[..k], check).Failure?
    ensures CheckAll(ws, check) == CheckAll(ws[..k], check)
    decreases |ws| - k
  {
    if k < |ws| {
      var front := ws[..|ws| - 1];
      assert front[..k] == ws[..k];
      CheckAllPrefixFailure(front, check, k);
    } else {
      assert ws[..k] == ws;
    }
  }

  // ---------------------------------------------------------------------------
  // Validating every workspace name (generate_cloudbuild_improved.py:465)

  /** Validates every name in order; the first failure is the one raised. */
  function ValidateAll(ws: seq<string>): (r: Result<seq<string>, ConfigError>)
    ensures r.Success? ==> |r.value| == |ws|
  {
    CheckAll(ws, ValidateWorkspaceName)
  }

  /** The list is accepted exactly when every name is; on acceptance it holds
      each name's sanitised form in order; on rejection the error is that of
      the first rejected name. */
  lemma ValidateAllSpec(ws: seq<string>)
    ensures ValidateAll(ws).Success? <==> forall i :: 0 <= i < |ws| ==> ValidateWorkspaceName(ws[i]).Success?
    ensures ValidateAll(ws).Success? ==>
      forall i :: 0 <= i < |ws| ==> ValidateWorkspaceName(ws[i]) == Success(ValidateAll(ws).value[i])
    ensures ValidateAll(ws).Failure? ==>
      exists i :: 0 <= i < |ws| &&
        ValidateWorkspaceName(ws[i]) == Failure(ValidateAll(ws).error) &&
        forall j :: 0 <= j < i ==> ValidateWorkspaceName(ws[j]).Success?
  {
    CheckAllSpec(ws, ValidateWorkspaceName);
  }

  lemma ValidateAllSnoc(ws: seq<string>, i: nat)
    requires i < |ws| && ValidateAll(ws[..i]).Success? && ValidateWorkspaceName(ws[i]).Success?
    ensures ValidateAll(ws[..i + 1]) ==
      Success(ValidateAll(ws[..i]).value + [ValidateWorkspaceName(ws[i]).value])
  {
    CheckAllSnoc(ws, ValidateWorkspaceName, i);
  }

  lemma ValidateAllSnocFailure(ws: seq<string>, i: nat)
    requires i < |ws| && ValidateAll(ws[..i]).Success? && ValidateWorkspaceName(ws[i]).Failure?
    ensures ValidateAll(ws[..i + 1]) == Failure(ValidateWorkspaceName(ws[i]).error)
  {
    CheckAllSnocFailure(ws, ValidateWorkspaceName, i);
  }

  lemma ValidateAllPrefixFailure(ws: seq<string>, k: nat)
    requires k <= |ws| && ValidateAll(ws[..k]).Failure?
    ensures ValidateAll(ws) == ValidateAll(ws[..k])
  {
    CheckAllPrefixFailure(ws, ValidateWorkspaceName, k);
  }

  /** Re-validating a validated list is the identity; this is what lets
      generate_steps validate names that generate_cloudbuild_config already
      sanitised. */
  lemma ValidateAllIdempotent(ws: seq<string>)
    requires ValidateAll(ws).Success?
    ensures ValidateAll(ValidateAll(ws).value) == ValidateAll(ws)
  {
    var names := ValidateAll(ws).value;
    ValidateAllSpec(ws);
    forall i | 0 <= i < |names| ensures ValidateWorkspaceName(names[i]) == Success(names[i]) {
      ValidateIdempotent(ws[i]);
    }
    ValidateAllSpec(names);
    var again := ValidateAll(names);
    assert again.value == names;
  }

  // ---------------------------------------------------------------------------
  // main: WORKSPACES split on commas, each field stripped, blank fields
  // dropped (generate_cloudbuild_improved.py:508-516)

  function StrippedNonEmpty(fields: seq<string>): (r: seq<string>)
    ensures |r| <= |fields|
    decreases |fields|
  {
    if fields == [] then []
    else
      var head := Strip(fields[0]);
      if head == [] then StrippedNonEmpty(fields[1..])
      else [head] + StrippedNonEmpty(fields[1..])
  }

  /** Only non-blank fields are kept, each already stripped; the result is
      empty exactly when every field is blank. */
  lemma StrippedNonEmptySpec(fields: seq<string>)
    ensures var r := StrippedNonEmpty(fields);
      forall i :: 0 <= i < |r| ==> r[i] != [] && Strip(r[i]) == r[i]
    ensures StrippedNonEmpty(fields) == [] <==> forall i :: 0 <= i < |fields| ==> Strip(fields[i]) == []
  {
    var r := StrippedNonEmpty(fields);
    forall i | 0 <= i < |r| ensures r[i] != [] && Strip(r[i]) == r[i] {
      StrippedAt(fields, i);
    }
    StrippedAllBlank(fields);
    forall i | 0 <= i < |fields| && Strip(fields[i]) != [] ensures r != [] {
      StrippedKeepsField(fields, i);
    }
  }

  /** The filter works field by field: filtering a concatenation is the
      concatenation of the filtered parts. */
  lemma {:induction false} StrippedNonEmptyAppend(a: seq<string>, b: seq<string>)
    ensures StrippedNonEmpty(a + b) == StrippedNonEmpty(a) + StrippedNonEmpty(b)
    decreases |a|
  {
    if a == [] {
      assert a + b == b;
    } else {
      assert (a + b)[0] == a[0];
      assert (a + b)[1..] == a[1..] + b;
      StrippedNonEmptyAppend(a[1..], b);
    }
  }

  /** A non-blank field is kept, stripped, right after the entries kept from
      the fields before it: the filter keeps every non-blank field, in order. */
  lemma StrippedKeepsField(fields: seq<string>, i: nat)
    requires i < |fields| && Strip(fields[i]) != []
    ensures var k := |StrippedNonEmpty(fields[..i])|;
      k < |StrippedNonEmpty(fields)| && StrippedNonEmpty(fields)[k] == Strip(fields[i])
  {
    assert fields == fields[..i] + fields[i..];
    StrippedNonEmptyAppend(fields[..i], fields[i..]);
    assert fields[i..][0] == fields[i];
  }

  lemma {:induction false} StrippedAt(fields: seq<string>, i: nat)
    requires i < |StrippedNonEmpty(fields)|
    ensures StrippedNonEmpty(fields)[i] != [] && Strip(StrippedNonEmpty(fields)[i]) == StrippedNonEmpty(fields)[i]
    decreases |fields|
  {
    var head := Strip(fields[0]);
    var rest := StrippedNonEmpty(fields[1..]);
    if head == [] {
      StrippedAt(fields[1..], i);
    } else if i == 0 {
      StripSpec(fields[0]);
      StripKeepsTrimmed(head);
    } else {
      assert StrippedNonEmpty(fields)[i] == rest[i - 1];
      StrippedAt(fields[1..], i - 1);
    }
  }

  lemma {:induction false} StrippedAllBlank(fields: seq<string>)
    ensures (forall i :: 0 <= i < |fields| ==> Strip(fields[i]) == []) ==> StrippedNonEmpty(fields) == []
    decreases |fields|
  {
    if fields != [] && forall i :: 0 <= i < |fields| ==> Strip(fields[i]) == [] {
      assert Strip(fields[0]) == [];
      forall i | 0 <= i < |fields| - 1 ensures Strip(fields[1..][i]) == [] {
        assert fields[1..][i] == fields[i + 1];
      }
      StrippedAllBlank(fields[1..]);
    }
  }

  /** The checks `main` makes on WORKSPACES before building anything: the
      variable must be non-empty and must name at least one non-blank field. */
  function ParseWorkspaceList(value: string): (r: Result<seq<string>, ConfigError>)
    ensures r == Failure(MissingWorkspaces) <==> value == []
    ensures r.Success? ==> |r.value| >= 1 && r.value == StrippedNonEmpty(Split(value, ','))
  {
    if value == [] then Failure(MissingWorkspaces)
    else
      var ws := StrippedNonEmpty(Split(value, ','));
      if ws == [] then Failure(NoWorkspaces) else Success(ws)
  }

  /** A non-empty WORKSPACES value is accepted exactly when one of its comma
      fields is non-blank, and is otherwise refused with NoWorkspaces; every
      accepted entry is non-empty and already stripped. */
  lemma ParseWorkspaceListSpec(value: string)
    ensures ParseWorkspaceList(value).Success? ==>
      var ws := ParseWorkspaceList(value).value;
      forall i :: 0 <= i < |ws| ==> ws[i] != [] && Strip(ws[i]) == ws[i]
    ensures value != [] ==>
      (ParseWorkspaceList(value).Success? <==>
       exists i :: 0 <= i < |Split(value, ',')| && Strip(Split(value, ',')[i]) != [])
    ensures value != [] && ParseWorkspaceList(value).Failure? ==> ParseWorkspaceList(value).error == NoWorkspaces
  {
    var fields := Split(value, ',');
    StrippedNonEmptySpec(fields);
    if value != [] && ParseWorkspaceList(value).Success? {
      var i :| 0 <= i < |fields| && Strip(fields[i]) != [];
      assert Strip(Split(value, ',')[i]) != [];
    }
  }

  lemma ExampleListSplits(value: string, fs: seq<string>)
    requires value == "dev, Staging 1,," && fs == ["dev", " Staging 1", "", ""]
    ensures Split(value, ',') == fs
  {
    SplitJoin(fs, ',');
    assert Join(fs[3..], ',') == "";
    assert Join(fs[2..], ',') == ",";
    assert Join(fs[1..], ',') == " Staging 1" + ",,";
    assert Join(fs, ',') == "dev," + " Staging 1,,";
    assert value == "dev," + " Staging 1,,";
  }

  lemma ExampleFieldsStrip(fs: seq<string>)
    requires fs == ["dev", " Staging 1", "", ""]
    ensures StrippedNonEmpty(fs) == ["dev", "Staging 1"]
  {
    StripKeepsTrimmed("dev");
    StripPadded(" ", "Staging 1", "");
    assert " " + "Staging 1" + "" == " Staging 1";
    assert StrippedNonEmpty(fs[3..]) == [];
    assert StrippedNonEmpty(fs[2..]) == [];
    assert StrippedNonEmpty(fs[1..]) == ["Staging 1"];
  }

  lemma ParseWorkspaceListExample()
    ensures ParseWorkspaceList("dev, Staging 1,,") == Success(["dev", "Staging 1"])
  {
    ExampleListSplits("dev, Staging 1,,", ["dev", " Staging 1", "", ""]);
    ExampleFieldsStrip(["dev", " Staging 1", "", ""]);
  }

  lemma BlankWorkspaceListRejected()
    ensures ParseWorkspaceList(" , ") == Failure(NoWorkspaces)
  {
    var gs := [" ", " "];
    SplitJoin(gs, ',');
    assert Join(gs, ',') == " , ";
    assert Strip(" ") == [];
  }
}
