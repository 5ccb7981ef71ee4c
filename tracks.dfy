/** The tracks page: which track card, if any, is expanded. */
module Tracks {
  import opened Wrappers

  /** A track; selection compares tracks by `id` only. */
  datatype Track = Track(id: string, title: string)

  const Catalog: seq<Track> := [Track("lms-platform", "LMS Platform Development")]

  /** `selectedTrack?.id === track.id`. */
  predicate IsSelected(selected: Option<Track>, track: Track) {
    selected.Some? && selected.value.id == track.id
  }

  /** `selectedTrack?.id === track.id ? null : track`. */
  function Clicked(selected: Option<Track>, track: Track): (r: Option<Track>)
    ensures r == None <==> IsSelected(selected, track)
    ensures r != None ==> r == Some(track)
  {
    if selected.Some? && selected.value.id == track.id then None else Some(track)
  }

  predicate DistinctIds(tracks: seq<Track>) {
    forall i, j :: 0 <= i < j < |tracks| ==> tracks[i].id != tracks[j].id
  }

  lemma CatalogIdsDistinct()
    ensures DistinctIds(Catalog)
  {
  }

  /** On the page, whatever is selected, at most one card of the track list is expanded. */
  lemma AtMostOneCatalogCardSelected(selected: Option<Track>, i: nat, j: nat)
    requires i < |Catalog| && j < |Catalog|
    requires IsSelected(selected, Catalog[i]) && IsSelected(selected, Catalog[j])
    ensures i == j
  {
    CatalogIdsDistinct();
    AtMostOneCardSelected(selected, Catalog, i, j);
  }

  /** Among tracks with distinct ids, at most one card renders as selected. */
  lemma AtMostOneCardSelected(selected: Option<Track>, tracks: seq<Track>, i: nat, j: nat)
    requires DistinctIds(tracks) && i < |tracks| && j < |tracks|
    requires IsSelected(selected, tracks[i]) && IsSelected(selected, tracks[j])
    ensures i == j
  {
  }

  /** After a click the clicked card is selected iff it was not before, and no other card with another id is. */
  lemma ClickSelectsOnlyIt(selected: Option<Track>, track: Track, other: Track)
    ensures IsSelected(Clicked(selected, track), track) <==> !IsSelected(selected, track)
    ensures other.id != track.id ==> !IsSelected(Clicked(selected, track), other)
  {
  }

  /**
   * Two clicks on a track give back the previous selection exactly when no
   * track, or that same track, was selected; from another track they leave
   * nothing selected.
   */
  lemma ClickTwice(selected: Option<Track>, track: Track)
    ensures Clicked(Clicked(selected, track), track) == selected <==> selected == None || selected == Some(track)
    ensures selected.Some? && selected.value.id != track.id ==> Clicked(Clicked(selected, track), track) == None
  {
  }

  class TracksPage {
    var selectedTrack: Option<Track>

    constructor ()
      ensures selectedTrack == None
    {
      selectedTrack := None;
    }

    /** The `isSelected` prop passed to a card. */
    predicate CardSelected(track: Track)
      reads this
    {
      IsSelected(selectedTrack, track)
    }

    method HandleTrackClick(track: Track)
      modifies this
      ensures selectedTrack == Clicked(old(selectedTrack), track)
      ensures CardSelected(track) <==> !old(CardSelected(track))
      ensures forall t: Track :: t.id != track.id ==> !CardSelected(t)
    {
      if selectedTrack.Some? && selectedTrack.value.id == track.id {
        selectedTrack := None;
      } else {
        selectedTrack := Some(track);
      }
    }
  }
}
