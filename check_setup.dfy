/**
 * The setup checker: whether the required packages import, whether the
 * `.env` file exists and holds real credentials, and the final verdict.
 * File existence, imports and environment values are inputs; what the
 * checker prints beyond its status words and verdict is not modelled.
 */
module CheckSetup {
  import opened Common

  // ---------------------------------------------------------------------------
  // check_file
  // ---------------------------------------------------------------------------

  datatype FileCheck = FileCheck(found: bool, status: string)

  /** `check_file`: reports whether the path exists; `required` only picks the word. */
  function CheckFile(present: bool, required: bool): (r: FileCheck)
    ensures r.found == present
    ensures r.status == "Found" <==> present
  {
    FileCheck(present, if present then "Found" else if required then "MISSING" else "Not found")
  }

  // ---------------------------------------------------------------------------
  // check_env_var
  // ---------------------------------------------------------------------------

  /** Python's `str.isspace` for one character. */
  predicate IsSpace(c: char)
  {
    || c == ' ' || ('\t' <= c <= '\r') || ('\U{1c}' <= c <= '\U{1f}')
    || c == '\U{85}' || c == '\U{a0}' || c == '\U{1680}' || ('\U{2000}' <= c <= '\U{200a}')
    || c == '\U{2028}' || c == '\U{2029}' || c == '\U{202f}' || c == '\U{205f}' || c == '\U{3000}'
  }

  /** `s.lstrip()` */
  function StripLeading(s: string): (r: string)
    ensures |r| <= |s| && r == s[|s| - |r|..]
    ensures forall i :: 0 <= i < |s| - |r| ==> IsSpace(s[i])
    ensures r == [] || !IsSpace(r[0])
  {
    if s != [] && IsSpace(s[0]) then StripLeading(s[1..]) else s
  }

  /** `s.rstrip()` */
  function StripTrailing(s: string): (r: string)
    ensures |r| <= |s| && r == s[..|r|]
    ensures forall i :: |r| <= i < |s| ==> IsSpace(s[i])
    ensures r == [] || !IsSpace(r[|r| - 1])
  {
    if s != [] && IsSpace(s[|s| - 1]) then StripTrailing(s[..|s| - 1]) else s
  }

  /** `s.strip()` */
  function Strip(s: string): string
  {
    StripTrailing(StripLeading(s))
  }

  function LowerChar(c: char): char
  {
    if 'A' <= c <= 'Z' then (c - 'A' + 'a') as char else c
  }

  /** `s.lower()` on the ASCII letters of a variable name. */
  function Lower(s: string): (r: string)
    ensures |r| == |s|
  {
    seq(|s|, i requires 0 <= i < |s| => LowerChar(s[i]))
  }

  /** The value `.env.example` ships for a variable. */
  function Placeholder(name: string): string
  {
    "your_" + Lower(name) + "_here"
  }

  /** The truthiness of `value and value != placeholder and value.strip()`. */
  predicate IsSet(name: string, value: Option<string>)
  {
    value.Some? && value.value != "" && value.value != Placeholder(name) && Strip(value.value) != ""
  }

  datatype VarCheck = VarCheck(isSet: bool, status: string)

  /** `check_env_var`: `value` is what `os.getenv` returns once `.env` is loaded. */
  function CheckEnvVar(name: string, value: Option<string>, required: bool): (r: VarCheck)
    ensures r.isSet == IsSet(name, value)
    ensures r.status == "Set" <==> r.isSet
  {
    var isSet := IsSet(name, value);
    VarCheck(isSet, if isSet then "Set" else if required then "NOT SET" else "Not set")
  }

  // ---------------------------------------------------------------------------
  // main
  // ---------------------------------------------------------------------------

  /** What the checker finds on the machine. */
  datatype Machine = Machine(
    stravalib: bool, polyline: bool, dotenv: bool,   // the three imports succeed
    requiredFiles: seq<bool>,                        // requirements.txt ... server.py exist
    hasEnv: bool,                                    // .env exists
    clientId: Option<string>, clientSecret: Option<string>, accessToken: Option<string>,
    hasActivities: bool)                             // activities.json exists

  /** The listed next steps include creating `.env` exactly when it is missing. */
  datatype Verdict = AllSet | AlmostReady | Incomplete(createEnv: bool)

  /**
   * `check_env_var` imports dotenv itself, so with `.env` present and the
   * package missing the import error ends the run before any verdict.
   */
  datatype Outcome = Finished(allGood: bool, verdict: Verdict) | DotenvImportError

  /** Every package imports, `.env` exists, and all three credentials are really set. */
  predicate Ready(m: Machine)
  {
    && m.stravalib && m.polyline && m.dotenv
    && m.hasEnv
    && IsSet("STRAVA_CLIENT_ID", m.clientId)
    && IsSet("STRAVA_CLIENT_SECRET", m.clientSecret)
    && IsSet("STRAVA_ACCESS_TOKEN", m.accessToken)
  }

  /** `main`, step by step on the `all_good` flag. */
  method SetupCheck(m: Machine) returns (outcome: Outcome)
    ensures outcome.DotenvImportError? <==> m.hasEnv && !m.dotenv
    ensures outcome.Finished? ==> (outcome.allGood <==> Ready(m))
    ensures outcome.Finished? ==> (outcome.verdict == AllSet <==> outcome.allGood && m.hasActivities)
    ensures outcome.Finished? ==> (outcome.verdict == AlmostReady <==> outcome.allGood && !m.hasActivities)
    ensures outcome.Finished? ==> (outcome.verdict.Incomplete? <==> !outcome.allGood)
    ensures outcome.Finished? && outcome.verdict.Incomplete? ==> (outcome.verdict.createEnv <==> !m.hasEnv)
  {
    var allGood := true;
    if !m.stravalib {
      allGood := false;
    }
    if !m.polyline {
      allGood := false;
    }
    if !m.dotenv {
      allGood := false;
    }
    // the required files are looked at and reported, nothing more
    for i := 0 to |m.requiredFiles|
    {
      var _ := CheckFile(m.requiredFiles[i], true);
    }
    var env := CheckFile(m.hasEnv, false);
    if env.found {
      if !m.dotenv {
        return DotenvImportError;
      }
      var clientId := CheckEnvVar("STRAVA_CLIENT_ID", m.clientId, true);
      var clientSecret := CheckEnvVar("STRAVA_CLIENT_SECRET", m.clientSecret, true);
      var accessToken := CheckEnvVar("STRAVA_ACCESS_TOKEN", m.accessToken, false);
      if !clientId.isSet || !clientSecret.isSet {
        allGood := false;
      } else if !accessToken.isSet {
        allGood := false;
      }
    } else {
      allGood := false;
    }
    var activities := CheckFile(m.hasActivities, false);
    if allGood && activities.found {
      outcome := Finished(allGood, AllSet);
    } else if allGood {
      outcome := Finished(allGood, AlmostReady);
    } else {
      outcome := Finished(allGood, Incomplete(!env.found));
    }
  }
}

module CheckSetupProofs {
  import opened Common
  import opened CheckSetup

  /** `required` changes the status word of a missing file and nothing else. */
  lemma RequiredOnlyStatus(present: bool)
    ensures CheckFile(present, true).found == CheckFile(present, false).found == present
    ensures CheckFile(present, true).status == CheckFile(present, false).status <==> present
  {
  }

  /** Stripping leaves nothing exactly when every character is whitespace. */
  lemma StripEmpty(s: string)
    ensures Strip(s) == "" <==> forall i :: 0 <= i < |s| ==> IsSpace(s[i])
  {
    var l := StripLeading(s);
    // what is left after the leading whitespace starts with a non-space, so
    // it strips to nothing only when it is empty
    assert l != [] ==> s[|s| - |l|] == l[0] && StripTrailing(l) != [];
  }

  /** What `rstrip` removes after the `lstrip` is whitespace at the end of `s`. */
  lemma StripTail(s: string)
    ensures forall k :: |s| - |StripLeading(s)| + |Strip(s)| <= k < |s| ==> IsSpace(s[k])
  {
    var l := StripLeading(s);
    var i := |s| - |l|;
    forall k | i + |Strip(s)| <= k < |s|
      ensures IsSpace(s[k])
    {
      assert s[k] == l[k - i];
    }
  }

  /** `strip()` removes exactly the whitespace at both ends. */
  lemma StripIsInfix(s: string)
    ensures exists i, j :: 0 <= i <= j <= |s| && Strip(s) == s[i..j]
              && (forall k :: 0 <= k < i ==> IsSpace(s[k]))
              && (forall k :: j <= k < |s| ==> IsSpace(s[k]))
    ensures Strip(s) == [] || (!IsSpace(Strip(s)[0]) && !IsSpace(Strip(s)[|Strip(s)| - 1]))
  {
    var l := StripLeading(s);
    var r := StripTrailing(l);
    var i := |s| - |l|;
    var j := i + |r|;
    assert Strip(s) == s[i..j] by {
      assert l == s[i..] && r == l[..|r|];
    }
    StripTail(s);
    assert r == [] || !IsSpace(r[0]) by {
      if r != [] {
        assert r[0] == l[0];
      }
    }
  }

  /**
   * A variable counts as set exactly when it has a value that is not the
   * placeholder and holds at least one non-whitespace character: unset,
   * empty, placeholder and whitespace-only values all fail.
   */
  lemma IsSetMeans(name: string, value: Option<string>)
    ensures IsSet(name, value) <==>
              && value.Some?
              && value.value != Placeholder(name)
              && exists i :: 0 <= i < |value.value| && !IsSpace(value.value[i])
  {
    if value.Some? {
      StripEmpty(value.value);
    }
  }
}
