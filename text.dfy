/** The JavaScript string operations the components rely on, over `seq<char>`:
    `toLowerCase` (ASCII letters only), `indexOf`/`includes`, `split` and `join`. */
module Text {
  import opened Wrappers

  /** `toLowerCase` restricted to ASCII: 'A'..'Z' become 'a'..'z', every other
      character is kept. */
  function Lower(s: string): (r: string)
    ensures |r| == |s|
    ensures forall i :: 0 <= i < |s| && !('A' <= s[i] <= 'Z') ==> r[i] == s[i]
    ensures forall i :: 0 <= i < |s| && 'A' <= s[i] <= 'Z' ==> r[i] == (s[i] as int + 32) as char
    ensures forall i :: 0 <= i < |r| ==> !('A' <= r[i] <= 'Z')
  {
    seq(|s|, i requires 0 <= i < |s| => if 'A' <= s[i] <= 'Z' then (s[i] as int + 32) as char else s[i])
  }

  /** Lower-casing twice is lower-casing once. */
  lemma LowerIdempotent(s: string)
    ensures Lower(Lower(s)) == Lower(s)
  {
  }

  /** `sub` occurs in `s` starting at index `i`. */
  predicate OccursAt(s: string, sub: string, i: int) {
    0 <= i && i + |sub| <= |s| && s[i..i + |sub|] == sub
  }

  /** `s.indexOf(sub)`: the first index at which `sub` occurs, or None for -1. */
  function IndexOf(s: string, sub: string): (r: Option<nat>)
    ensures r.Some? ==> OccursAt(s, sub, r.value)
    ensures r.Some? ==> forall j :: 0 <= j < r.value ==> !OccursAt(s, sub, j)
    ensures r.None? ==> forall j :: !OccursAt(s, sub, j)
    decreases |s|
  {
    if |sub| <= |s| && s[..|sub|] == sub then Some(0)
    else if |s| <= |sub| then None
    else
      var rest := IndexOf(s[1..], sub);
      assert forall j :: 0 <= j ==> (OccursAt(s, sub, j + 1) <==> OccursAt(s[1..], sub, j)) by {
        forall j | 0 <= j ensures OccursAt(s, sub, j + 1) <==> OccursAt(s[1..], sub, j) {
          OccursShift(s, sub, j);
        }
      }
      assert forall j :: OccursAt(s, sub, j) ==> j == 0 || OccursAt(s[1..], sub, j - 1);
      if rest.None? then None else Some(rest.value + 1)
  }

  /** Dropping the first character shifts every occurrence one place left. */
  lemma OccursShift(s: string, sub: string, j: nat)
    requires |s| > 0
    ensures OccursAt(s, sub, j + 1) <==> OccursAt(s[1..], sub, j)
  {
    if j + 1 + |sub| <= |s| {
      var a, b := s[j + 1..j + 1 + |sub|], s[1..][j..j + |sub|];
      assert |a| == |b|;
      assert forall k :: 0 <= k < |a| ==> a[k] == s[j + 1 + k] == b[k];
      assert a == b;
    }
  }

  /** `s.includes(sub)`. */
  predicate Includes(s: string, sub: string) {
    IndexOf(s, sub).Some?
  }

  /** `parts.join(sep)`. */
  function Join(parts: seq<string>, sep: string): (joined: string) {
    if |parts| == 0 then ""
    else if |parts| == 1 then parts[0]
    else parts[0] + sep + Join(parts[1..], sep)
  }

  /** `s.split(sep)` for a non-empty separator: the pieces between the occurrences
      of `sep` found scanning from the left, each occurrence consumed whole. */
  function Split(s: string, sep: string): (parts: seq<string>)
    requires |sep| > 0
    ensures |parts| >= 1
    ensures Join(parts, sep) == s
    ensures forall k :: 0 <= k < |parts| ==> !Includes(parts[k], sep)
    decreases |s|
  {
    match IndexOf(s, sep)
    case None => [s]
    case Some(i) =>
      var rest := Split(s[i + |sep|..], sep);
      assert s == s[..i] + sep + s[i + |sep|..];
      assert !Includes(s[..i], sep) by {
        var head := s[..i];
        if IndexOf(head, sep).Some? {
          var j := IndexOf(head, sep).value;
          assert s[j..j + |sep|] == head[j..j + |sep|];
          assert OccursAt(s, sep, j);
        }
      }
      assert ([s[..i]] + rest)[1..] == rest;
      [s[..i]] + rest
  }

  /** `split` cuts at the first occurrence of the separator and splits the rest
      again: one piece exactly when there is no occurrence, otherwise the first
      piece ends where `indexOf` finds the separator. Together with `Join` this
      determines every piece. */
  lemma SplitCutsAtFirstOccurrence(s: string, sep: string)
    requires |sep| > 0
    ensures |Split(s, sep)| == 1 <==> !Includes(s, sep)
    ensures |Split(s, sep)| > 1 ==> IndexOf(s, sep) == Some(|Split(s, sep)[0]|)
    ensures |Split(s, sep)| > 1 ==>
      Split(s, sep)[1..] == Split(s[|Split(s, sep)[0]| + |sep|..], sep)
  {
    var parts := Split(s, sep);
    match IndexOf(s, sep)
    case None =>
      assert parts == [s];
    case Some(i) =>
      var rest := Split(s[i + |sep|..], sep);
      assert parts == [s[..i]] + rest;
      assert parts[1..] == rest;
  }

  /** The last piece of `s.split(sep)`: `parts[parts.length - 1]`. */
  function LastPiece(s: string, sep: string): (last: string)
    requires |sep| > 0
    ensures !Includes(last, sep)
  {
    var parts := Split(s, sep);
    parts[|parts| - 1]
  }

  /** `s` ends with `suffix`. */
  predicate EndsWith(s: string, suffix: string) {
    |suffix| <= |s| && s[|s| - |suffix|..] == suffix
  }

  /** Without an occurrence of the separator, `split` yields the whole string. */
  lemma LastPieceWithoutSeparator(s: string, sep: string)
    requires |sep| > 0 && !Includes(s, sep)
    ensures LastPiece(s, sep) == s
  {
  }

  /** One step of `split`: the first occurrence is consumed and the last piece is
      that of the remainder. */
  lemma SplitStep(s: string, sep: string) returns (i: nat)
    requires |sep| > 0 && Includes(s, sep)
    ensures i + |sep| <= |s| && s[i..i + |sep|] == sep
    ensures forall j :: 0 <= j < i ==> !OccursAt(s, sep, j)
    ensures LastPiece(s, sep) == LastPiece(s[i + |sep|..], sep)
  {
    i := IndexOf(s, sep).value;
    var rest := Split(s[i + |sep|..], sep);
    var parts := Split(s, sep);
    assert parts == [s[..i]] + rest;
    assert parts[|parts| - 1] == rest[|rest| - 1];
  }

  /** With an occurrence, the last piece is what follows an occurrence of the
      separator. */
  lemma {:induction false} LastPieceFollowsSeparator(s: string, sep: string)
    requires |sep| > 0 && Includes(s, sep)
    ensures EndsWith(s, sep + LastPiece(s, sep))
    decreases |s|
  {
    var i := SplitStep(s, sep);
    var rest := s[i + |sep|..];
    var last := LastPiece(s, sep);
    if Includes(rest, sep) {
      LastPieceFollowsSeparator(rest, sep);
      assert s[|s| - |sep + last|..] == rest[|rest| - |sep + last|..];
    } else {
      LastPieceWithoutSeparator(rest, sep);
      assert s[|s| - |sep + last|..] == s[i..];
      assert s[i..] == s[i..i + |sep|] + rest;
    }
  }

  /** A separator whose only '/' is its last character, like "project-images/".
      Two occurrences of such a separator can never overlap. */
  predicate SlashTerminated(sep: string) {
    |sep| > 0 && sep[|sep| - 1] == '/' && forall k :: 0 <= k < |sep| - 1 ==> sep[k] != '/'
  }

  /** For a slash-terminated separator, the occurrence that precedes the last piece
      is the last occurrence in the string. */
  lemma LastOccurrence(s: string, sep: string, t: string)
    requires SlashTerminated(sep) && EndsWith(s, sep + t) && !Includes(t, sep)
    ensures OccursAt(s, sep, |s| - |sep| - |t|)
    ensures forall m :: |s| - |sep| - |t| < m ==> !OccursAt(s, sep, m)
  {
    var at := |s| - |sep| - |t|;
    assert s[at..] == sep + t;
    assert s[at..at + |sep|] == sep;
    forall m | at < m && m + |sep| <= |s|
      ensures !OccursAt(s, sep, m)
    {
      if m >= at + |sep| {
        var j := m - at - |sep|;
        assert t[j..j + |sep|] == s[m..m + |sep|];
        assert !OccursAt(t, sep, j);
      } else {
        var q := at + |sep| - 1;
        assert s[q] == s[at..][|sep| - 1] == '/';
        assert s[q] == s[m..m + |sep|][q - m];
      }
    }
  }

  /** A string with no '/' holds no occurrence of a slash-terminated separator. */
  lemma NoSlashNoOccurrence(t: string, sep: string)
    requires SlashTerminated(sep) && '/' !in t
    ensures !Includes(t, sep)
  {
    forall j | 0 <= j && j + |sep| <= |t|
      ensures !OccursAt(t, sep, j)
    {
      assert t[j..j + |sep|][|sep| - 1] == t[j + |sep| - 1];
    }
  }

  /** An occurrence of a slash-terminated separator that starts inside `x` in
      `x + sep + t` ends inside `x` too. */
  lemma OccurrenceInsidePrefix(x: string, sep: string, t: string, i: nat)
    requires SlashTerminated(sep) && i < |x| && OccursAt(x + sep + t, sep, i)
    ensures i + |sep| <= |x|
  {
    var s := x + sep + t;
    var q := i + |sep| - 1;
    assert s[q] == s[i..i + |sep|][|sep| - 1] == '/';
    forall k | |x| <= k < |x| + |sep| - 1
      ensures s[k] != '/'
    {
      assert s[k] == sep[k - |x|];
    }
  }

  /** Splitting `x + sep + t`, where `t` holds no '/', on a slash-terminated `sep`
      ends with `t`, whatever `x` holds. */
  lemma {:induction false} LastPieceAfter(x: string, sep: string, t: string)
    requires SlashTerminated(sep) && '/' !in t
    ensures LastPiece(x + sep + t, sep) == t
    decreases |x|
  {
    var s := x + sep + t;
    assert s[|x|..|x| + |sep|] == sep;
    assert OccursAt(s, sep, |x|);
    var i := SplitStep(s, sep);
    assert i <= |x|;
    if i < |x| {
      OccurrenceInsidePrefix(x, sep, t, i);
      var x' := x[i + |sep|..];
      assert s[i + |sep|..] == x' + sep + t;
      LastPieceAfter(x', sep, t);
    } else {
      assert s[i + |sep|..] == t;
      NoSlashNoOccurrence(t, sep);
      LastPieceWithoutSeparator(t, sep);
    }
  }
}
