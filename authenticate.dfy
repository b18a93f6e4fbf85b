/**
 * The `.env` rewrite that follows a successful OAuth exchange: every token
 * line of an existing file is replaced by the new token, every other line is
 * copied, and the token block is appended when the file had no access-token
 * line; a missing file is created with the four settings.
 *
 * The file is text read with `readlines()`: `ReadLines` splits it after each
 * newline (the last line may have none), and the output file is the
 * concatenation of what was written.
 */
module Authenticate {
  import opened Common

  const AccessPrefix: string := "STRAVA_ACCESS_TOKEN="
  const RefreshPrefix: string := "STRAVA_REFRESH_TOKEN="

  function AccessLine(access: string): string
  {
    AccessPrefix + access + "\n"
  }

  function RefreshLine(refresh: string): string
  {
    RefreshPrefix + refresh + "\n"
  }

  /** An f-string of an environment lookup: the value, or `None` when unset. */
  function Shown(v: Option<string>): string
  {
    match v
    case Some(s) => s
    case None => "None"
  }

  // ---------------------------------------------------------------------------
  // Lines of a text file
  // ---------------------------------------------------------------------------

  /** The length of the first line of `c`: up to and including its first newline. */
  function LineEnd(c: string): (n: nat)
    requires c != []
    ensures 0 < n <= |c|
    ensures forall i :: 0 <= i < n - 1 ==> c[i] != '\n'
    ensures c[n - 1] == '\n' || n == |c|
  {
    if c[0] == '\n' || |c| == 1 then 1 else 1 + LineEnd(c[1..])
  }

  /** `f.readlines()`: the lines of `c`, each keeping its newline. */
  function ReadLines(c: string): seq<string>
    decreases |c|
  {
    if c == [] then [] else [c[..LineEnd(c)]] + ReadLines(c[LineEnd(c)..])
  }

  /** What a sequence of `f.write` calls leaves in the file. */
  function Concat(pieces: seq<string>): string
  {
    if pieces == [] then "" else pieces[0] + Concat(pieces[1..])
  }

  /** A non-empty piece of text with no newline before its last character. */
  predicate IsLine(l: string)
  {
    l != [] && forall i :: 0 <= i < |l| - 1 ==> l[i] != '\n'
  }

  predicate EndsLine(l: string)
  {
    l != [] && l[|l| - 1] == '\n'
  }

  /** The shape `readlines()` produces: lines, all but the last newline-terminated. */
  predicate WellFormed(lines: seq<string>)
  {
    && (forall i :: 0 <= i < |lines| ==> IsLine(lines[i]))
    && (forall i :: 0 <= i < |lines| - 1 ==> EndsLine(lines[i]))
  }

  // ---------------------------------------------------------------------------
  // The rewrite
  // ---------------------------------------------------------------------------

  /** One line of the loop over the existing file. */
  function RewriteLine(line: string, access: string, refresh: string): string
  {
    if StartsWith(line, AccessPrefix) then AccessLine(access)
    else if StartsWith(line, RefreshPrefix) then RefreshLine(refresh)
    else line
  }

  function Rewritten(lines: seq<string>, access: string, refresh: string): (r: seq<string>)
    ensures |r| == |lines|
  {
    seq(|lines|, i requires 0 <= i < |lines| => RewriteLine(lines[i], access, refresh))
  }

  /** Whether the loop sets `updated`: some line starts with the access prefix. */
  predicate HasAccessLine(lines: seq<string>)
  {
    exists i :: 0 <= i < |lines| && StartsWith(lines[i], AccessPrefix)
  }

  /** The block written after the loop when no access line was seen. */
  function AppendBlock(access: string, refresh: string): seq<string>
  {
    ["\n" + AccessLine(access), RefreshLine(refresh)]
  }

  function NewFile(access: string, refresh: string, clientId: Option<string>, clientSecret: Option<string>): seq<string>
  {
    ["STRAVA_CLIENT_ID=" + Shown(clientId) + "\n",
     "STRAVA_CLIENT_SECRET=" + Shown(clientSecret) + "\n",
     AccessLine(access),
     RefreshLine(refresh)]
  }

  /**
   * The writes of `update_env_file`: `existing` is the file's content, `None`
   * when it does not exist; `clientId` and `clientSecret` are the
   * environment's values.
   */
  function EnvWrites(existing: Option<string>, access: string, refresh: string,
                     clientId: Option<string>, clientSecret: Option<string>): seq<string>
  {
    match existing
    case None => NewFile(access, refresh, clientId, clientSecret)
    case Some(c) =>
      var lines := ReadLines(c);
      Rewritten(lines, access, refresh) + (if HasAccessLine(lines) then [] else AppendBlock(access, refresh))
  }

  /** The file's content after `update_env_file`. */
  function NewContent(existing: Option<string>, access: string, refresh: string,
                      clientId: Option<string>, clientSecret: Option<string>): string
  {
    Concat(EnvWrites(existing, access, refresh, clientId, clientSecret))
  }

  /** `update_env_file`, returning the strings passed to `f.write` in order. */
  method UpdateEnvFile(existing: Option<string>, access: string, refresh: string,
                       clientId: Option<string>, clientSecret: Option<string>) returns (writes: seq<string>)
    ensures writes == EnvWrites(existing, access, refresh, clientId, clientSecret)
  {
    if existing.None? {
      writes := NewFile(access, refresh, clientId, clientSecret);
      return;
    }
    var lines := ReadLines(existing.value);
    var updated := false;
    writes := [];
    for i := 0 to |lines|
      invariant writes == Rewritten(lines[..i], access, refresh)
      invariant updated <==> HasAccessLine(lines[..i])
    {
      var line := lines[i];
      assert lines[..i + 1] == lines[..i] + [line];
      if StartsWith(line, AccessPrefix) {
        writes := writes + [AccessLine(access)];
        updated := true;
      } else if StartsWith(line, RefreshPrefix) {
        writes := writes + [RefreshLine(refresh)];
      } else {
        writes := writes + [line];
      }
      assert HasAccessLine(lines[..i + 1]) <==> HasAccessLine(lines[..i]) || StartsWith(line, AccessPrefix) by {
        assert forall j :: 0 <= j < i ==> lines[..i + 1][j] == lines[..i][j];
        assert lines[..i + 1][i] == line;
      }
    }
    assert lines[..|lines|] == lines;
    if !updated {
      writes := writes + AppendBlock(access, refresh);
    }
  }
}

module AuthenticateProofs {
  import opened Common
  import opened Authenticate

  // ---------------------------------------------------------------------------
  // Reading back what was written
  // ---------------------------------------------------------------------------

  lemma {:induction false} ConcatAppend(a: seq<string>, b: seq<string>)
    ensures Concat(a + b) == Concat(a) + Concat(b)
  {
    if a == [] {
      assert a + b == b;
    } else {
      var rest := Concat(a[1..] + b);
      assert Concat(a + b) == a[0] + rest by {
        assert (a + b)[0] == a[0] && (a + b)[1..] == a[1..] + b;
      }
      assert rest == Concat(a[1..]) + Concat(b) by {
        ConcatAppend(a[1..], b);
      }
      assert a[0] + (Concat(a[1..]) + Concat(b)) == (a[0] + Concat(a[1..])) + Concat(b);
    }
  }

  lemma ConcatCons(x: string, t: seq<string>)
    ensures Concat([x] + t) == x + Concat(t)
  {
    assert ([x] + t)[0] == x && ([x] + t)[1..] == t;
  }

  lemma ConcatOne(x: string)
    ensures Concat([x]) == x
  {
    assert [x][1..] == [];
    assert x + "" == x;
  }

  lemma ConcatTwo(x: string, y: string)
    ensures Concat([x, y]) == x + y
  {
    assert [x, y][1..] == [y];
    ConcatOne(y);
  }

  /** The first line read, then the rest of the file. */
  lemma ConcatReadStep(c: string)
    requires c != []
    ensures Concat(ReadLines(c)) == c[..LineEnd(c)] + Concat(ReadLines(c[LineEnd(c)..]))
  {
    ConcatCons(c[..LineEnd(c)], ReadLines(c[LineEnd(c)..]));
  }

  /** Reading a file loses nothing: its lines concatenate back to it. */
  lemma {:induction false} ReadLinesConcat(c: string)
    ensures Concat(ReadLines(c)) == c
    decreases |c|
  {
    if c != [] {
      var n := LineEnd(c);
      ConcatReadStep(c);
      ReadLinesConcat(c[n..]);
      assert c[..n] + c[n..] == c;
    }
  }

  /** `readlines()` yields well-formed lines. */
  lemma {:induction false} ReadLinesWellFormed(c: string)
    ensures WellFormed(ReadLines(c))
    decreases |c|
  {
    if c != [] {
      var n := LineEnd(c);
      var rest := ReadLines(c[n..]);
      ReadLinesWellFormed(c[n..]);
      var lines := [c[..n]] + rest;
      assert IsLine(c[..n]);
      forall i | 0 <= i < |lines|
        ensures IsLine(lines[i])
      {
        if i > 0 { assert lines[i] == rest[i - 1]; }
      }
      forall i | 0 <= i < |lines| - 1
        ensures EndsLine(lines[i])
      {
        if i > 0 {
          assert lines[i] == rest[i - 1];
        } else {
          assert rest != [];
          assert c[n..] != [] && n < |c|;
        }
      }
    }
  }

  /** A line followed by more text ends where the line ends. */
  lemma {:induction false} LineEndOfLine(l: string, rest: string)
    requires IsLine(l) && (EndsLine(l) || rest == [])
    ensures LineEnd(l + rest) == |l|
    decreases |l|
  {
    if |l| > 1 {
      assert (l + rest)[0] == l[0] != '\n';
      assert (l + rest)[1..] == l[1..] + rest;
      LineEndOfLine(l[1..], rest);
    }
  }

  lemma WellFormedTail(lines: seq<string>)
    requires WellFormed(lines) && lines != []
    ensures WellFormed(lines[1..])
  {
    var rest := lines[1..];
    forall i | 0 <= i < |rest|
      ensures IsLine(rest[i])
    {
      assert rest[i] == lines[i + 1];
    }
    forall i | 0 <= i < |rest| - 1
      ensures EndsLine(rest[i])
    {
      assert rest[i] == lines[i + 1];
    }
  }

  /** Reading a line followed by more text yields that line first. */
  lemma ReadLinesOfLine(l: string, rest: string)
    requires IsLine(l) && (EndsLine(l) || rest == [])
    ensures ReadLines(l + rest) == [l] + ReadLines(rest)
  {
    var c := l + rest;
    LineEndOfLine(l, rest);
    assert c[..|l|] == l && c[|l|..] == rest;
  }

  /** Writing well-formed lines and reading them back yields the same lines. */
  lemma {:induction false} ConcatReadLines(lines: seq<string>)
    requires WellFormed(lines)
    ensures ReadLines(Concat(lines)) == lines
  {
    if lines != [] {
      var rest := lines[1..];
      WellFormedTail(lines);
      ConcatReadLines(rest);
      assert Concat(lines) == lines[0] + Concat(rest);
      assert EndsLine(lines[0]) || Concat(rest) == [] by {
        if |lines| > 1 { assert EndsLine(lines[0]); }
      }
      ReadLinesOfLine(lines[0], Concat(rest));
      assert lines == [lines[0]] + rest;
    }
  }

  // ---------------------------------------------------------------------------
  // Lines and prefixes
  // ---------------------------------------------------------------------------

  lemma PrefixesDiffer(l: string)
    ensures StartsWith(l, AccessPrefix) ==> !StartsWith(l, RefreshPrefix)
  {
    if StartsWith(l, AccessPrefix) {
      assert l[7] == AccessPrefix[7] == 'A';
      assert RefreshPrefix[7] == 'R';
    }
  }

  lemma TokenLinesShape(access: string, refresh: string)
    ensures StartsWith(AccessLine(access), AccessPrefix) && !StartsWith(AccessLine(access), RefreshPrefix)
    ensures StartsWith(RefreshLine(refresh), RefreshPrefix) && !StartsWith(RefreshLine(refresh), AccessPrefix)
    ensures EndsLine(AccessLine(access)) && EndsLine(RefreshLine(refresh))
  {
    assert AccessLine(access)[..|AccessPrefix|] == AccessPrefix;
    assert RefreshLine(refresh)[..|RefreshPrefix|] == RefreshPrefix;
    PrefixesDiffer(AccessLine(access));
    PrefixesDiffer(RefreshLine(refresh));
  }

  predicate NoNewline(s: string)
  {
    forall i :: 0 <= i < |s| ==> s[i] != '\n'
  }

  lemma TokenLinesAreLines(access: string, refresh: string)
    requires NoNewline(access) && NoNewline(refresh)
    ensures IsLine(AccessLine(access)) && IsLine(RefreshLine(refresh))
  {
    assert NoNewline(AccessPrefix) && NoNewline(RefreshPrefix);
    var a := AccessLine(access);
    forall i | 0 <= i < |a| - 1
      ensures a[i] != '\n'
    {
      if i < |AccessPrefix| { assert a[i] == AccessPrefix[i]; } else { assert a[i] == access[i - |AccessPrefix|]; }
    }
    var r := RefreshLine(refresh);
    forall i | 0 <= i < |r| - 1
      ensures r[i] != '\n'
    {
      if i < |RefreshPrefix| { assert r[i] == RefreshPrefix[i]; } else { assert r[i] == refresh[i - |RefreshPrefix|]; }
    }
  }

  /** A line without a newline stays clear of both prefixes once one is added. */
  lemma TerminateKeepsPrefixes(l: string, p: string)
    requires NoNewline(p) && !StartsWith(l, p)
    ensures !StartsWith(l + "\n", p)
  {
    if |p| <= |l| {
      assert (l + "\n")[..|p|] == l[..|p|];
    } else if |p| == |l| + 1 {
      assert (l + "\n")[|l|] == '\n' != p[|l|];
    }
  }

  /** A rewritten line needs no further rewriting. */
  lemma RewriteIdempotent(line: string, access: string, refresh: string)
    ensures RewriteLine(RewriteLine(line, access, refresh), access, refresh) == RewriteLine(line, access, refresh)
  {
    TokenLinesShape(access, refresh);
  }

  /** Rewriting keeps the shape of the lines when the tokens hold no newline. */
  lemma RewrittenWellFormed(lines: seq<string>, access: string, refresh: string)
    requires WellFormed(lines) && NoNewline(access) && NoNewline(refresh)
    ensures WellFormed(Rewritten(lines, access, refresh))
  {
    TokenLinesShape(access, refresh);
    TokenLinesAreLines(access, refresh);
  }

  /**
   * The loop over an existing file: one write per line read, in order; a
   * line starting with either token prefix is replaced by that token's line,
   * any other line is copied; the block follows exactly when no line starts
   * with the access prefix. The lines read are the whole file.
   */
  lemma LineByLine(c: string, access: string, refresh: string, clientId: Option<string>, clientSecret: Option<string>)
    ensures var lines := ReadLines(c);
            var w := EnvWrites(Some(c), access, refresh, clientId, clientSecret);
            && Concat(lines) == c
            && |w| == |lines| + (if HasAccessLine(lines) then 0 else 2)
            && (forall i :: 0 <= i < |lines| && StartsWith(lines[i], AccessPrefix) ==> w[i] == AccessLine(access))
            && (forall i :: 0 <= i < |lines| && StartsWith(lines[i], RefreshPrefix) ==> w[i] == RefreshLine(refresh))
            && (forall i :: 0 <= i < |lines| && !StartsWith(lines[i], AccessPrefix) && !StartsWith(lines[i], RefreshPrefix)
                  ==> w[i] == lines[i])
            && (w[|lines|..] == AppendBlock(access, refresh) <==> !HasAccessLine(lines))
  {
    var lines := ReadLines(c);
    var w := EnvWrites(Some(c), access, refresh, clientId, clientSecret);
    ReadLinesConcat(c);
    forall i | 0 <= i < |lines| && StartsWith(lines[i], RefreshPrefix)
      ensures w[i] == RefreshLine(refresh)
    {
      PrefixesDiffer(lines[i]);
    }
    assert w[|lines|..] == if HasAccessLine(lines) then [] else AppendBlock(access, refresh);
  }

  // ---------------------------------------------------------------------------
  // What the rewritten file holds
  // ---------------------------------------------------------------------------

  /**
   * The newline written before the appended access line: it ends the last
   * line when that line had no newline, and is a blank line otherwise.
   */
  function Terminated(lines: seq<string>): (r: seq<string>)
  {
    if lines == [] || EndsLine(lines[|lines| - 1]) then lines + ["\n"]
    else lines[..|lines| - 1] + [lines[|lines| - 1] + "\n"]
  }

  /** Whether it ends the last line or adds a blank one, `Terminated` writes one newline. */
  lemma TerminatedNewline(lines: seq<string>)
    ensures Concat(Terminated(lines)) == Concat(lines) + "\n"
  {
    if lines == [] || EndsLine(lines[|lines| - 1]) {
      ConcatAppend(lines, ["\n"]);
      ConcatOne("\n");
    } else {
      var m := |lines| - 1;
      var last := lines[m];
      var front := Concat(lines[..m]);
      assert Concat(lines) == front + last by {
        assert lines == lines[..m] + [last];
        ConcatAppend(lines[..m], [last]);
        ConcatOne(last);
      }
      assert Concat(Terminated(lines)) == front + (last + "\n") by {
        ConcatAppend(lines[..m], [last + "\n"]);
        ConcatOne(last + "\n");
      }
      assert front + (last + "\n") == (front + last) + "\n";
    }
  }

  /** Writing `"\n" + a` after the lines is writing `Terminated` of them, then `a`. */
  lemma TerminatedConcat(lines: seq<string>, a: string, r: string)
    ensures Concat(Terminated(lines) + [a, r]) == Concat(lines + ["\n" + a, r])
  {
    var front := Concat(lines);
    var nl := "\n";
    assert Concat(lines + [nl + a, r]) == front + ((nl + a) + r) by {
      ConcatAppend(lines, [nl + a, r]);
      ConcatTwo(nl + a, r);
    }
    assert Concat(Terminated(lines) + [a, r]) == (front + nl) + (a + r) by {
      ConcatAppend(Terminated(lines), [a, r]);
      ConcatTwo(a, r);
      TerminatedNewline(lines);
    }
    assert (front + nl) + (a + r) == front + ((nl + a) + r);
  }

  lemma TerminatedWellFormed(lines: seq<string>, access: string, refresh: string)
    requires WellFormed(lines) && NoNewline(access) && NoNewline(refresh)
    ensures WellFormed(Terminated(lines) + [AccessLine(access), RefreshLine(refresh)])
  {
    var a, r := AccessLine(access), RefreshLine(refresh);
    TokenLinesAreLines(access, refresh);
    TokenLinesShape(access, refresh);
    var t := Terminated(lines);
    assert IsLine("\n");
    if lines != [] && !EndsLine(lines[|lines| - 1]) {
      var last := lines[|lines| - 1];
      assert IsLine(last + "\n") by {
        assert forall i :: 0 <= i < |last| ==> (last + "\n")[i] == last[i];
      }
    }
    var u := t + [a, r];
    forall i | 0 <= i < |u|
      ensures IsLine(u[i])
    {
      if i < |t| - 1 { assert u[i] == lines[i]; }
    }
    forall i | 0 <= i < |u| - 1
      ensures EndsLine(u[i])
    {
      if i < |t| - 1 { assert u[i] == lines[i]; }
    }
  }

  /**
   * The lines of the rewritten file, as a later `readlines()` sees them:
   * the rewritten lines, followed, when there was no access line, by the
   * newline that ends the last line (or a blank line) and the two token lines.
   */
  lemma OutputLines(c: string, access: string, refresh: string, clientId: Option<string>, clientSecret: Option<string>)
    requires NoNewline(access) && NoNewline(refresh)
    ensures var lines := ReadLines(c);
            var r := Rewritten(lines, access, refresh);
            ReadLines(NewContent(Some(c), access, refresh, clientId, clientSecret))
            == if HasAccessLine(lines) then r else Terminated(r) + [AccessLine(access), RefreshLine(refresh)]
  {
    var lines := ReadLines(c);
    var r := Rewritten(lines, access, refresh);
    ReadLinesWellFormed(c);
    RewrittenWellFormed(lines, access, refresh);
    if HasAccessLine(lines) {
      assert r + [] == r;
      ConcatReadLines(r);
    } else {
      TerminatedConcat(r, AccessLine(access), RefreshLine(refresh));
      TerminatedWellFormed(r, access, refresh);
      ConcatReadLines(Terminated(r) + [AccessLine(access), RefreshLine(refresh)]);
    }
  }

  /** The number of lines that start with the refresh prefix. */
  function RefreshCount(lines: seq<string>): nat
  {
    if lines == [] then 0
    else (if StartsWith(lines[0], RefreshPrefix) then 1 else 0) + RefreshCount(lines[1..])
  }

  lemma {:induction false} RefreshCountAppend(a: seq<string>, b: seq<string>)
    ensures RefreshCount(a + b) == RefreshCount(a) + RefreshCount(b)
  {
    if a == [] {
      assert a + b == b;
    } else {
      RefreshCountAppend(a[1..], b);
      assert (a + b)[1..] == a[1..] + b;
    }
  }

  lemma {:induction false} RefreshCountRewritten(lines: seq<string>, access: string, refresh: string)
    ensures RefreshCount(Rewritten(lines, access, refresh)) == RefreshCount(lines)
  {
    if lines != [] {
      TokenLinesShape(access, refresh);
      PrefixesDiffer(lines[0]);
      RefreshCountRewritten(lines[1..], access, refresh);
      assert Rewritten(lines, access, refresh)[1..] == Rewritten(lines[1..], access, refresh);
    }
  }

  /** The last rewritten line, when it has no newline, was copied unchanged. */
  lemma UnterminatedLastCopied(lines: seq<string>, access: string, refresh: string)
    requires lines != []
    requires !EndsLine(Rewritten(lines, access, refresh)[|lines| - 1])
    ensures var m := |lines| - 1;
            && Rewritten(lines, access, refresh)[m] == lines[m]
            && !StartsWith(lines[m], AccessPrefix) && !StartsWith(lines[m], RefreshPrefix)
  {
    TokenLinesShape(access, refresh);
  }

  lemma TokenLinesCount(access: string, refresh: string)
    ensures RefreshCount([AccessLine(access), RefreshLine(refresh)]) == 1
  {
    var tail := [AccessLine(access), RefreshLine(refresh)];
    TokenLinesShape(access, refresh);
    assert tail[1..] == [RefreshLine(refresh)] && tail[1..][1..] == [];
    assert RefreshCount(tail[1..][1..]) == 0;
  }

  /** A lone newline, or a copied line given its newline, keeps the refresh count. */
  lemma TerminatedCount(lines: seq<string>, access: string, refresh: string)
    ensures RefreshCount(Terminated(Rewritten(lines, access, refresh))) == RefreshCount(lines)
  {
    var r := Rewritten(lines, access, refresh);
    var t := Terminated(r);
    assert RefreshCount(r) == RefreshCount(lines) by {
      RefreshCountRewritten(lines, access, refresh);
    }
    if r == [] || EndsLine(r[|r| - 1]) {
      RefreshCountAppend(r, ["\n"]);
      assert !StartsWith("\n", RefreshPrefix);
      assert ["\n"][1..] == [];
    } else {
      var m := |r| - 1;
      UnterminatedLastCopied(lines, access, refresh);
      assert NoNewline(RefreshPrefix);
      TerminateKeepsPrefixes(r[m], RefreshPrefix);
      assert r == r[..m] + [r[m]];
      RefreshCountAppend(r[..m], [r[m]]);
      RefreshCountAppend(r[..m], [r[m] + "\n"]);
      assert [r[m]][1..] == [] && [r[m] + "\n"][1..] == [];
    }
  }

  /** Every line of `Terminated` of rewritten lines is in rewritten form. */
  lemma TerminatedFixed(lines: seq<string>, access: string, refresh: string)
    ensures var t := Terminated(Rewritten(lines, access, refresh));
            forall i :: 0 <= i < |t| ==> RewriteLine(t[i], access, refresh) == t[i]
  {
    var r := Rewritten(lines, access, refresh);
    var t := Terminated(r);
    if r != [] && !EndsLine(r[|r| - 1]) {
      var m := |r| - 1;
      UnterminatedLastCopied(lines, access, refresh);
      assert NoNewline(AccessPrefix) && NoNewline(RefreshPrefix);
      TerminateKeepsPrefixes(r[m], AccessPrefix);
      TerminateKeepsPrefixes(r[m], RefreshPrefix);
    }
    forall i | 0 <= i < |t|
      ensures RewriteLine(t[i], access, refresh) == t[i]
    {
      if i < |r| && (i < |r| - 1 || EndsLine(r[|r| - 1])) {
        assert t[i] == r[i];
        RewriteIdempotent(lines[i], access, refresh);
      }
    }
  }

  /**
   * The lines after the append path: an access line among them, one more
   * refresh line than before, and every line in its rewritten form.
   */
  lemma AppendedLines(lines: seq<string>, access: string, refresh: string)
    ensures var out := Terminated(Rewritten(lines, access, refresh)) + [AccessLine(access), RefreshLine(refresh)];
            && HasAccessLine(out)
            && RefreshCount(out) == RefreshCount(lines) + 1
            && forall i :: 0 <= i < |out| ==> RewriteLine(out[i], access, refresh) == out[i]
  {
    var t := Terminated(Rewritten(lines, access, refresh));
    var tail := [AccessLine(access), RefreshLine(refresh)];
    var out := t + tail;
    TokenLinesShape(access, refresh);
    assert HasAccessLine(out) by {
      assert out[|t|] == AccessLine(access);
    }
    assert RefreshCount(out) == RefreshCount(lines) + 1 by {
      RefreshCountAppend(t, tail);
      TokenLinesCount(access, refresh);
      TerminatedCount(lines, access, refresh);
    }
    TerminatedFixed(lines, access, refresh);
    assert forall i :: 0 <= i < |out| ==> RewriteLine(out[i], access, refresh) == out[i] by {
      forall i | 0 <= i < |out|
        ensures RewriteLine(out[i], access, refresh) == out[i]
      {
        if i < |t| { assert out[i] == t[i]; }
      }
    }
  }

  /**
   * Only the access branch sets `updated`: a file without an access line
   * gains one, and gains a second refresh line next to any it had.
   */
  lemma RefreshOnlyGainsSecond(c: string, access: string, refresh: string, clientId: Option<string>, clientSecret: Option<string>)
    requires NoNewline(access) && NoNewline(refresh)
    requires !HasAccessLine(ReadLines(c))
    ensures var out := ReadLines(NewContent(Some(c), access, refresh, clientId, clientSecret));
            && HasAccessLine(out)
            && RefreshCount(out) == RefreshCount(ReadLines(c)) + 1
  {
    OutputLines(c, access, refresh, clientId, clientSecret);
    AppendedLines(ReadLines(c), access, refresh);
  }

  /**
   * When the file does not exist it is created with exactly four lines:
   * client id, client secret, access token and refresh token, in that order.
   */
  lemma NewFileLines(access: string, refresh: string, clientId: Option<string>, clientSecret: Option<string>)
    requires NoNewline(access) && NoNewline(refresh) && NoNewline(Shown(clientId)) && NoNewline(Shown(clientSecret))
    ensures var out := ReadLines(NewContent(None, access, refresh, clientId, clientSecret));
            && |out| == 4
            && out[0] == "STRAVA_CLIENT_ID=" + Shown(clientId) + "\n"
            && out[1] == "STRAVA_CLIENT_SECRET=" + Shown(clientSecret) + "\n"
            && out[2] == AccessLine(access)
            && out[3] == RefreshLine(refresh)
  {
    var w := NewFile(access, refresh, clientId, clientSecret);
    NewFileWellFormed(access, refresh, clientId, clientSecret);
    ConcatReadLines(w);
  }

  lemma NewFileWellFormed(access: string, refresh: string, clientId: Option<string>, clientSecret: Option<string>)
    requires NoNewline(access) && NoNewline(refresh) && NoNewline(Shown(clientId)) && NoNewline(Shown(clientSecret))
    ensures WellFormed(NewFile(access, refresh, clientId, clientSecret))
    ensures forall l :: l in NewFile(access, refresh, clientId, clientSecret) ==> RewriteLine(l, access, refresh) == l
    ensures HasAccessLine(NewFile(access, refresh, clientId, clientSecret))
  {
    var w := NewFile(access, refresh, clientId, clientSecret);
    TokenLinesAreLines(access, refresh);
    TokenLinesShape(access, refresh);
    SettingLine("STRAVA_CLIENT_ID=", Shown(clientId));
    SettingLine("STRAVA_CLIENT_SECRET=", Shown(clientSecret));
    assert w[2] == AccessLine(access);
  }

  /** A `NAME=value` line for a name other than the two tokens. */
  lemma SettingLine(name: string, value: string)
    requires name == "STRAVA_CLIENT_ID=" || name == "STRAVA_CLIENT_SECRET="
    requires NoNewline(value)
    ensures IsLine(name + value + "\n") && EndsLine(name + value + "\n")
    ensures !StartsWith(name + value + "\n", AccessPrefix) && !StartsWith(name + value + "\n", RefreshPrefix)
  {
    var l := name + value + "\n";
    assert l[7] == 'C';
    forall i | 0 <= i < |l| - 1
      ensures l[i] != '\n'
    {
      if i < |name| { assert l[i] == name[i]; } else { assert l[i] == value[i - |name|]; }
    }
  }

  // ---------------------------------------------------------------------------
  // A second run
  // ---------------------------------------------------------------------------

  lemma {:induction false} FixedLines(lines: seq<string>, access: string, refresh: string)
    requires forall i :: 0 <= i < |lines| ==> RewriteLine(lines[i], access, refresh) == lines[i]
    ensures Rewritten(lines, access, refresh) == lines
  {
  }

  /** A file whose lines need no rewriting and that has an access line is left as it is. */
  lemma StableContent(c: string, access: string, refresh: string, clientId: Option<string>, clientSecret: Option<string>)
    requires forall l :: l in ReadLines(c) ==> RewriteLine(l, access, refresh) == l
    requires HasAccessLine(ReadLines(c))
    ensures NewContent(Some(c), access, refresh, clientId, clientSecret) == c
  {
    var lines := ReadLines(c);
    FixedLines(lines, access, refresh);
    assert Rewritten(lines, access, refresh) + [] == lines;
    ReadLinesConcat(c);
  }

  /**
   * Running the rewrite a second time with the same tokens reproduces the
   * file: after one run it has an access line, so only the replace path is
   * taken, and every line is already in its rewritten form.
   */
  lemma SecondRunSame(existing: Option<string>, access: string, refresh: string,
                      clientId: Option<string>, clientSecret: Option<string>)
    requires NoNewline(access) && NoNewline(refresh) && NoNewline(Shown(clientId)) && NoNewline(Shown(clientSecret))
    ensures var once := NewContent(existing, access, refresh, clientId, clientSecret);
            NewContent(Some(once), access, refresh, clientId, clientSecret) == once
  {
    var once := NewContent(existing, access, refresh, clientId, clientSecret);
    var out := ReadLines(once);
    TokenLinesShape(access, refresh);
    match existing {
      case None =>
        NewFileWellFormed(access, refresh, clientId, clientSecret);
        ConcatReadLines(NewFile(access, refresh, clientId, clientSecret));
      case Some(c) =>
        var lines := ReadLines(c);
        var r := Rewritten(lines, access, refresh);
        OutputLines(c, access, refresh, clientId, clientSecret);
        assert forall i :: 0 <= i < |r| ==> RewriteLine(r[i], access, refresh) == r[i] by {
          forall i | 0 <= i < |r|
            ensures RewriteLine(r[i], access, refresh) == r[i]
          {
            RewriteIdempotent(lines[i], access, refresh);
          }
        }
        if HasAccessLine(lines) {
          assert HasAccessLine(out) by {
            var i :| 0 <= i < |lines| && StartsWith(lines[i], AccessPrefix);
            assert StartsWith(out[i], AccessPrefix);
          }
        } else {
          AppendedLines(lines, access, refresh);
          assert forall l :: l in out ==> RewriteLine(l, access, refresh) == l;
        }
    }
    StableContent(once, access, refresh, clientId, clientSecret);
  }
}
