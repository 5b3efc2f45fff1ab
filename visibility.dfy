/**
 * Which controls the snippet card shows, as a function of the session, the
 * favourites list, the snippet's privacy flag and the `code-preview` query
 * parameter of the page.
 */
module Visibility {
  import opened Wrappers
  import opened Favourites

  /**
   * The favourite control: for a signed-in user a button that toggles the
   * favourite, with a filled or an outlined star; for anyone else a button
   * that opens the login dialog. Both show the number of favourites.
   */
  datatype FavouriteControl =
    | ToggleButton(filled: bool, count: nat)
    | LoginDialog(count: nat)

  /** The card's optional controls. */
  datatype Controls = Controls(favourite: FavouriteControl, shareDialog: bool, commentLink: bool)

  /**
   * The controls of a card. `user` is the signed-in user's handle, `None`
   * when nobody is signed in; `previewParam` is the value of the
   * `code-preview` query parameter, `None` when it is absent.
   */
  function CardControls(user: Option<Handle>, favoris: seq<Handle>, isPrivate: bool, previewParam: Option<string>): (c: Controls)
    ensures c.favourite.ToggleButton? <==> user.Some?
    ensures c.favourite.count == |favoris|
    ensures c.favourite.ToggleButton? ==> (c.favourite.filled <==> user.value in favoris)
    ensures c.shareDialog <==> !isPrivate
    ensures c.commentLink <==> previewParam.None? && !isPrivate
  {
    var favourite :=
      if user.Some? then ToggleButton(user.value in favoris, |favoris|)
      else LoginDialog(|favoris|);
    Controls(favourite, !isPrivate, previewParam == None && !isPrivate)
  }

  /** A private snippet shows neither the share dialog nor the comment link, whatever else holds. */
  lemma PrivateHidesSharing(user: Option<Handle>, favoris: seq<Handle>, previewParam: Option<string>)
    ensures !CardControls(user, favoris, true, previewParam).shareDialog
    ensures !CardControls(user, favoris, true, previewParam).commentLink
  {
  }

  /** The comment link is only ever shown beside the share dialog. */
  lemma CommentLinkNeedsShare(user: Option<Handle>, favoris: seq<Handle>, isPrivate: bool, previewParam: Option<string>)
    ensures CardControls(user, favoris, isPrivate, previewParam).commentLink
        ==> CardControls(user, favoris, isPrivate, previewParam).shareDialog
  {
  }

  /**
   * The favourites list written back when the favourite control is pressed:
   * the toggled list for a signed-in user, nothing for anyone else (the
   * login dialog opens instead).
   */
  function PressFavourite(user: Option<Handle>, favoris: seq<Handle>): (written: Option<seq<Handle>>)
    ensures written.Some? <==> user.Some?
    ensures written.Some? ==> (user.value in written.value <==> user.value !in favoris)
    ensures written.Some? ==> forall h :: h != user.value ==> multiset(written.value)[h] == multiset(favoris)[h]
    ensures written.Some? ==> written.value == Toggle(favoris, user.value)
  {
    if user.Some? then Some(Toggle(favoris, user.value)) else None
  }

  /**
   * Once the written list comes back, the star of the user who pressed it
   * flips, and the count grows by one or drops by the user's occurrences.
   */
  lemma PressFlipsStar(pseudo: Handle, favoris: seq<Handle>, isPrivate: bool, previewParam: Option<string>)
    ensures var before := CardControls(Some(pseudo), favoris, isPrivate, previewParam).favourite;
      var written := PressFavourite(Some(pseudo), favoris).value;
      var after := CardControls(Some(pseudo), written, isPrivate, previewParam).favourite;
      && after.filled == !before.filled
      && after.count == if before.filled then before.count - multiset(favoris)[pseudo] else before.count + 1
  {
  }

  /** Pressing twice, starting from a list without the user, restores both the list and the control. */
  lemma PressTwiceRestores(pseudo: Handle, favoris: seq<Handle>)
    requires pseudo !in favoris
    ensures PressFavourite(Some(pseudo), PressFavourite(Some(pseudo), favoris).value) == Some(favoris)
  {
    ToggleTwiceRestores(favoris, pseudo);
  }

}
