/** The dashboard's "join a group" prompt: the user types a token or pastes
    a whole invite link, and the page navigates to the join route of the
    token it extracts. The extraction follows JavaScript's `split`, which
    scans left to right for non-overlapping occurrences of the separator,
    followed by `pop`, which takes the last piece. */
module DashboardPage {
  import opened Wrappers
  import GroupDetailsPage

  const JoinSegment: string := "/join/"

  /** `sep` occurs in `s` starting at `i`. */
  predicate OccursAt(s: string, sep: string, i: nat)
  {
    i + |sep| <= |s| && s[i..i + |sep|] == sep
  }

  /** The first occurrence of `sep` in `s` at or after `i`. */
  function IndexFrom(s: string, sep: string, i: nat): (r: Option<nat>)
    ensures r.Some? ==> i <= r.value && OccursAt(s, sep, r.value)
    ensures r.Some? ==> forall j :: i <= j < r.value ==> !OccursAt(s, sep, j)
    ensures r.None? ==> forall j :: i <= j ==> !OccursAt(s, sep, j)
    decreases |s| - i
  {
    if i + |sep| > |s| then None
    else if s[i..i + |sep|] == sep then Some(i)
    else IndexFrom(s, sep, i + 1)
  }

  /** `s.includes(sep)`. */
  predicate Includes(s: string, sep: string)
  {
    IndexFrom(s, sep, 0).Some?
  }

  /** Where the scan from `k` leaves off: just past the last occurrence of
      `sep` that the left-to-right, non-overlapping scan finds, or `k` when
      there is none. */
  function LastStart(s: string, sep: string, k: nat): (r: nat)
    requires |sep| > 0 && k <= |s|
    ensures k <= r <= |s|
    decreases |s| - k
  {
    match IndexFrom(s, sep, k)
    case None => k
    case Some(i) => LastStart(s, sep, i + |sep|)
  }

  /** `s.split(sep).pop()` for a non-empty separator: what follows the
      separator occurrence the left-to-right scan finds last. */
  function LastPiece(s: string, sep: string): string
    requires |sep| > 0
  {
    s[LastStart(s, sep, 0)..]
  }

  /** The token the prompt's input names. */
  function ExtractToken(input: string): (r: string)
    ensures !Includes(input, JoinSegment) ==> r == input
  {
    if Includes(input, JoinSegment) then
      var piece := LastPiece(input, JoinSegment);
      if piece == "" then input else piece
    else input
  }

  /** When the scan finds anything, it leaves off right after an occurrence. */
  lemma {:induction false} LastStartAfterSeparator(s: string, sep: string, k: nat)
    requires |sep| > 0 && k <= |s| && IndexFrom(s, sep, k).Some?
    ensures |sep| <= LastStart(s, sep, k) && OccursAt(s, sep, LastStart(s, sep, k) - |sep|)
    decreases |s| - k
  {
    var i := IndexFrom(s, sep, k).value;
    var next := i + |sep|;
    assert LastStart(s, sep, k) == LastStart(s, sep, next);
    if IndexFrom(s, sep, next).Some? {
      LastStartAfterSeparator(s, sep, next);
    } else {
      assert LastStart(s, sep, next) == next && next - |sep| == i;
    }
  }

  /** After the scan leaves off there is no further occurrence. */
  lemma {:induction false} LastStartIsClear(s: string, sep: string, k: nat)
    requires |sep| > 0 && k <= |s|
    ensures IndexFrom(s, sep, LastStart(s, sep, k)).None?
    decreases |s| - k
  {
    match IndexFrom(s, sep, k)
    case None =>
    case Some(i) => LastStartIsClear(s, sep, i + |sep|);
  }

  /** Occurrences in a suffix are occurrences in the whole, shifted. */
  lemma ShiftOccurs(s: string, sep: string, m: nat, j: nat)
    requires m <= |s|
    ensures OccursAt(s[m..], sep, j) <==> OccursAt(s, sep, m + j)
  {
    if m + j + |sep| <= |s| {
      assert s[m..][j..j + |sep|] == s[m + j..m + j + |sep|];
    }
  }

  /** The suffix from `m` holds the separator exactly when the scan from `m`
      finds one. */
  lemma SuffixIncludes(s: string, sep: string, m: nat)
    requires m <= |s|
    ensures Includes(s[m..], sep) <==> IndexFrom(s, sep, m).Some?
  {
    if Includes(s[m..], sep) {
      ShiftOccurs(s, sep, m, IndexFrom(s[m..], sep, 0).value);
    }
    if IndexFrom(s, sep, m).Some? {
      var i := IndexFrom(s, sep, m).value;
      ShiftOccurs(s, sep, m, i - m);
    }
  }

  /** The last piece contains no separator. */
  lemma LastPieceHasNoSeparator(s: string, sep: string)
    requires |sep| > 0
    ensures !Includes(LastPiece(s, sep), sep)
  {
    LastStartIsClear(s, sep, 0);
    SuffixIncludes(s, sep, LastStart(s, sep, 0));
  }

  /** When the separator occurs at all, the input ends with the separator
      followed by the last piece. */
  lemma LastPieceEndsInput(s: string, sep: string)
    requires |sep| > 0 && Includes(s, sep)
    ensures |LastPiece(s, sep)| + |sep| <= |s|
    ensures s[|s| - |LastPiece(s, sep)| - |sep|..] == sep + LastPiece(s, sep)
  {
    LastStartAfterSeparator(s, sep, 0);
    EndsWithOccurrence(s, sep, LastStart(s, sep, 0));
  }

  /** Text that follows an occurrence of `sep` ends the input together with it. */
  lemma EndsWithOccurrence(s: string, sep: string, l: nat)
    requires |sep| <= l && OccursAt(s, sep, l - |sep|)
    ensures |s[l..]| + |sep| <= |s|
    ensures s[|s| - |s[l..]| - |sep|..] == sep + s[l..]
  {
    assert s[l - |sep|..] == s[l - |sep|..l] + s[l..];
  }

  /** The scan's first find is the occurrence with none before it. */
  lemma FirstOccurrence(s: string, sep: string, k: nat)
    requires OccursAt(s, sep, k)
    requires forall j :: 0 <= j < k ==> !OccursAt(s, sep, j)
    ensures IndexFrom(s, sep, 0) == Some(k)
  {
    var r := IndexFrom(s, sep, 0);
    assert r.Some?;
    assert !(r.value < k);
    assert !(k < r.value);
  }

  /** Input holding "/join/" yields the text after the separator the scan
      finds last when that text is not empty, and the whole input when it is;
      a token so taken holds no "/join/" of its own. */
  lemma TokenAfterLastJoin(input: string)
    requires Includes(input, JoinSegment)
    ensures LastPiece(input, JoinSegment) == "" ==> ExtractToken(input) == input
    ensures LastPiece(input, JoinSegment) != "" ==>
      var t := ExtractToken(input);
      && t != "" && !Includes(t, JoinSegment)
      && |JoinSegment + t| <= |input| && input[|input| - |JoinSegment + t|..] == JoinSegment + t
  {
    LastPieceHasNoSeparator(input, JoinSegment);
    LastPieceEndsInput(input, JoinSegment);
  }

  /** Where the prompt navigates: nowhere when it is cancelled or left empty,
      else to the join route of the extracted token. */
  function JoinTarget(input: Option<string>): (r: Option<string>)
    ensures r.None? <==> input.None? || input.value == ""
    ensures r.Some? ==> r.value == JoinSegment + ExtractToken(input.value)
  {
    match input
    case None => None
    case Some(text) => if text == "" then None else Some(JoinSegment + ExtractToken(text))
  }

  /** The origin a link is built from neither holds "/join/" nor ends with
      the start of it, so the link's first "/join/" is the one the builder
      adds. A page origin such as "https://host:5173" is of this kind. */
  predicate PlainOrigin(origin: string)
  {
    && !Includes(origin, JoinSegment)
    && forall k :: 1 <= k < |JoinSegment| && k <= |origin| ==> origin[|origin| - k..] != JoinSegment[..k]
  }

  /** A typical page origin. */
  lemma ExampleOrigin()
    ensures PlainOrigin("http://localhost:5173")
  {
    var origin := "http://localhost:5173";
    assert forall idx :: 0 <= idx < |origin| ==> origin[idx] != 'j';
    forall j: nat
      ensures !OccursAt(origin, JoinSegment, j)
    {
      if j + |JoinSegment| <= |origin| {
        assert origin[j..j + |JoinSegment|][1] == origin[j + 1];
      }
    }
    forall k | 1 <= k < |JoinSegment|
      ensures origin[|origin| - k..] != JoinSegment[..k]
    {
      assert origin[|origin| - k..][0] == origin[|origin| - k] != '/';
    }
  }

  lemma FirstJoinAfterOrigin(origin: string, token: string)
    requires PlainOrigin(origin)
    ensures IndexFrom(GroupDetailsPage.InviteLink(origin, token), JoinSegment, 0) == Some(|origin|)
  {
    var link := GroupDetailsPage.InviteLink(origin, token);
    assert link == origin + JoinSegment + token;
    assert link[|origin|..|origin| + |JoinSegment|] == JoinSegment;
    forall j | 0 <= j < |origin|
      ensures !OccursAt(link, JoinSegment, j)
    {
      if j + |JoinSegment| <= |origin| {
        assert link[j..j + |JoinSegment|] == origin[j..j + |JoinSegment|];
        assert !OccursAt(origin, JoinSegment, j);
      } else {
        var k := |origin| - j;
        assert origin[|origin| - k..] != JoinSegment[..k];
        assert link[j..j + k] == origin[j..];
      }
    }
    FirstOccurrence(link, JoinSegment, |origin|);
  }

  /** Pasting a link built by the group page's invite-link builder yields the
      original token, and navigates to the link's own join route, for any
      non-empty token without "/join/". */
  lemma InviteLinkRoundTrip(origin: string, token: string)
    requires PlainOrigin(origin)
    requires token != "" && !Includes(token, JoinSegment)
    ensures ExtractToken(GroupDetailsPage.InviteLink(origin, token)) == token
    ensures JoinTarget(Some(GroupDetailsPage.InviteLink(origin, token))) == Some(JoinSegment + token)
  {
    var link := GroupDetailsPage.InviteLink(origin, token);
    FirstJoinAfterOrigin(origin, token);
    var m := |origin| + |JoinSegment|;
    assert link[m..] == token;
    SuffixIncludes(link, JoinSegment, m);
    assert LastStart(link, JoinSegment, 0) == LastStart(link, JoinSegment, m) == m;
  }
}
