/** The create-group page of the web client: friends are picked by toggling
    them in and out of the selection, and the selection is posted as the new
    group's initial members. */
module CreateGroupPage {
  import opened Wrappers
  import opened Seqs
  import opened Store
  import GroupService

  /** toggleFriend: a selected id is dropped (every copy of it, the rest in
      order), any other id is appended. */
  function ToggleFriend(prev: seq<UserId>, id: UserId): (r: seq<UserId>)
    ensures id in r <==> id !in prev
    ensures forall y :: y != id ==> (y in r <==> y in prev)
  {
    WithoutMembers(prev, id);
    if id in prev then Without(prev, id) else prev + [id]
  }

  /** In a duplicate-free selection, toggling a selected id cuts it out and
      leaves the ids before and after it as they were. */
  lemma ToggleCutsOut(prev: seq<UserId>, i: nat)
    requires Distinct(prev) && i < |prev|
    ensures ToggleFriend(prev, prev[i]) == prev[..i] + prev[i + 1..]
  {
    var id := prev[i];
    assert prev == prev[..i] + [id] + prev[i + 1..];
    assert id !in prev[..i] && id !in prev[i + 1..];
    WithoutConcat(prev[..i] + [id], prev[i + 1..], id);
    WithoutConcat(prev[..i], [id], id);
    WithoutAbsent(prev[..i], id);
    WithoutAbsent(prev[i + 1..], id);
  }

  /** Toggling an unselected id twice gives back the selection exactly. */
  lemma ToggleTwiceRestores(prev: seq<UserId>, id: UserId)
    requires id !in prev
    ensures ToggleFriend(ToggleFriend(prev, id), id) == prev
  {
    WithoutConcat(prev, [id], id);
    WithoutAbsent(prev, id);
  }

  /** Toggling keeps a duplicate-free selection duplicate-free. */
  lemma ToggleKeepsDistinct(prev: seq<UserId>, id: UserId)
    requires Distinct(prev)
    ensures Distinct(ToggleFriend(prev, id))
  {
    if id in prev {
      WithoutDistinct(prev, id);
    } else {
      DistinctAppend(prev, id);
    }
  }

  /** The selection after toggling `clicks` in turn, starting from none. */
  function Selection(clicks: seq<UserId>): seq<UserId>
  {
    if clicks == [] then [] else ToggleFriend(Selection(clicks[..|clicks| - 1]), clicks[|clicks| - 1])
  }

  /** Whatever friends are clicked, the selection holds no id twice. */
  lemma {:induction false} SelectionDistinct(clicks: seq<UserId>)
    ensures Distinct(Selection(clicks))
    decreases |clicks|
  {
    if clicks != [] {
      SelectionDistinct(clicks[..|clicks| - 1]);
      ToggleKeepsDistinct(Selection(clicks[..|clicks| - 1]), clicks[|clicks| - 1]);
    }
  }

  /** The body handleSubmit posts to `/groups`; nothing is posted when no
      user is signed in. */
  function SubmitPayload(name: string, selected: seq<UserId>, user: Option<UserId>)
    : (r: Option<GroupService.CreateGroupRequest>)
    ensures r.Some? <==> user.Some?
    ensures r.Some? ==> r.value.name == name && r.value.createdBy == user.value
    ensures r.Some? ==> GroupService.Invited(r.value) == selected
  {
    match user
    case None => None
    case Some(id) => Some(GroupService.CreateGroupRequest(name, Some(selected), id))
  }

  /** A payload built from the page's selection never makes createGroup fail
      with a duplicate member. */
  lemma PayloadHasNoDuplicate(name: string, clicks: seq<UserId>, user: UserId)
    ensures var req := SubmitPayload(name, Selection(clicks), Some(user)).value;
      Distinct(Without(GroupService.Invited(req), req.createdBy))
  {
    SelectionDistinct(clicks);
    WithoutDistinct(Selection(clicks), user);
  }
}
