/** The element locator shared by the segment, tab, alert-button and
    row-action helpers: filter the items that bear a key, then insist on a
    unique match (or, for alert buttons, take the first one). */
module Locator {
  import opened ArmoryErrors

  /** An image. `isEqual` on the same image object is modelled as equality. */
  datatype Image = Image(id: nat)

  /** A selectable element: a segment of a segmented control, a tab-bar item,
      an alert action or a table-row edit action. Either label may be absent. */
  datatype Item = Item(title: Option<string>, image: Option<Image>)

  /** The handler an alert action or a row edit action runs, as an opaque
      name: running it is recorded, its effects are not modelled. */
  datatype Handler = Handler(id: nat)

  /** What an element is looked up by. */
  datatype Key = ByTitle(title: string) | ByImage(image: Image)

  /** A title matches only an element whose title is present and equal; an
      image matches only an element whose image is present and equal. */
  predicate Matches(item: Item, key: Key)
    ensures Matches(item, key) && key.ByTitle? ==> item.title.Some?
    ensures Matches(item, key) && key.ByImage? ==> item.image.Some?
  {
    match key
    case ByTitle(t) => item.title == Some(t)
    case ByImage(img) => item.image == Some(img)
  }

  /** The elements a lookup by title searches: one per entry of `xs`, bearing
      the entry's title and no image. Alert actions and row edit actions are
      searched through it. */
  function TitledItems<T>(xs: seq<T>, titleOf: T -> Option<string>): (items: seq<Item>)
    ensures |items| == |xs|
    ensures forall i :: 0 <= i < |xs| ==> items[i] == Item(titleOf(xs[i]), None)
  {
    seq(|xs|, i requires 0 <= i < |xs| => Item(titleOf(xs[i]), None))
  }

  /** The error thrown when no element bears the key. */
  function LookupFailure(key: Key): (e: ArmoryError)
    ensures e != MultipleMatchesFound && e != IndexOutOfBounds
    ensures key.ByTitle? <==> e == TitleLookupFailed
    ensures key.ByImage? <==> e == ImageLookupFailed
  {
    match key
    case ByTitle(_) => TitleLookupFailed
    case ByImage(_) => ImageLookupFailed
  }

  /** The offsets of the elements that bear the key, in increasing order:
      exactly the offsets `enumerated().filter` keeps. */
  function Offsets(items: seq<Item>, key: Key): (offsets: seq<nat>)
    ensures forall k :: 0 <= k < |offsets| ==> offsets[k] < |items| && Matches(items[offsets[k]], key)
    ensures forall k, l :: 0 <= k < l < |offsets| ==> offsets[k] < offsets[l]
    ensures forall i :: 0 <= i < |items| && Matches(items[i], key) ==> i in offsets
    decreases |items|
  {
    if |items| == 0 then []
    else
      var n := |items| - 1;
      Offsets(items[..n], key) + (if Matches(items[n], key) then [n] else [])
  }

  /** The filter keeps no offset exactly when no element bears the key. */
  lemma NoOffsets(items: seq<Item>, key: Key)
    ensures |Offsets(items, key)| == 0 <==> forall j :: 0 <= j < |items| ==> !Matches(items[j], key)
  {
    // Follows from the contract of `Offsets`.
  }

  /** Two distinct elements that bear the key both have their offsets kept. */
  lemma TwoMatchesTwoOffsets(items: seq<Item>, key: Key, i: nat, j: nat)
    requires i < j < |items| && Matches(items[i], key) && Matches(items[j], key)
    ensures |Offsets(items, key)| >= 2
  {
    var offsets := Offsets(items, key);
    assert i in offsets && j in offsets;
  }

  /** The filter keeps two or more offsets exactly when two distinct
      elements bear the key. */
  lemma SeveralOffsets(items: seq<Item>, key: Key)
    ensures |Offsets(items, key)| >= 2 <==>
              exists i, j :: 0 <= i < j < |items| && Matches(items[i], key) && Matches(items[j], key)
  {
    var offsets := Offsets(items, key);
    if |offsets| >= 2 {
      assert offsets[0] < offsets[1] && Matches(items[offsets[0]], key) && Matches(items[offsets[1]], key);
    }
    forall i, j | 0 <= i < j < |items| && Matches(items[i], key) && Matches(items[j], key)
      ensures |offsets| >= 2
    {
      TwoMatchesTwoOffsets(items, key, i, j);
    }
  }

  /** When the filter keeps one offset, no other element bears the key. */
  lemma SingleOffset(items: seq<Item>, key: Key)
    requires |Offsets(items, key)| == 1
    ensures forall j :: 0 <= j < |items| && Matches(items[j], key) ==> j == Offsets(items, key)[0]
  {
    // Follows from the contract of `Offsets`: every match is kept.
  }

  /** Lookup by title or image: no match is the key's lookup failure, two or
      more matches are `multipleMatchesFound` (never "first wins"), and a
      unique match gives its offset. */
  function Locate(items: seq<Item>, key: Key): (r: Result<nat>)
    ensures r.Ok? ==> r.value < |items| && Matches(items[r.value], key)
    ensures r.Ok? ==> forall j :: 0 <= j < |items| && j != r.value ==> !Matches(items[j], key)
    ensures r == Err(LookupFailure(key)) <==> forall j :: 0 <= j < |items| ==> !Matches(items[j], key)
    ensures r == Err(MultipleMatchesFound) <==>
              exists i, j :: 0 <= i < j < |items| && Matches(items[i], key) && Matches(items[j], key)
    ensures r.Err? ==> r.error == LookupFailure(key) || r.error == MultipleMatchesFound
  {
    var offsets := Offsets(items, key);
    NoOffsets(items, key);
    SeveralOffsets(items, key);
    if |offsets| == 0 then Err(LookupFailure(key))
    else if |offsets| != 1 then Err(MultipleMatchesFound)
    else SingleOffset(items, key); Ok(offsets[0])
  }

  /** The bounds check of the index-based selectors: an index outside
      [0, count) is out of bounds, any other index is selected as given. */
  function CheckIndex(index: int, count: nat): (r: Result<nat>)
    ensures r.Ok? <==> 0 <= index < count
    ensures r.Ok? ==> r.value == index
    ensures r.Err? ==> r.error == IndexOutOfBounds
  {
    if 0 <= index < count then Ok(index) else Err(IndexOutOfBounds)
  }

  /** Looks up an alert action by title as `first(where:)` does: the lowest
      offset whose title is present and equal, or `titleLookupFailed`. */
  function FirstTitled(items: seq<Item>, title: string): (r: Result<nat>)
    ensures r.Ok? ==> r.value < |items| && items[r.value].title == Some(title)
    ensures r.Ok? ==> forall j :: 0 <= j < r.value ==> items[j].title != Some(title)
    ensures r.Err? <==> forall j :: 0 <= j < |items| ==> items[j].title != Some(title)
    ensures r.Err? ==> r.error == TitleLookupFailed
    decreases |items|
  {
    if |items| == 0 then Err(TitleLookupFailed)
    else if items[0].title == Some(title) then Ok(0)
    else
      match FirstTitled(items[1..], title)
      case Ok(i) => Ok(i + 1)
      case Err(e) => Err(e)
  }

  /** First-match and unique-match lookup by title agree whenever the title
      is unique or absent; on a duplicated title the unique-match lookup
      fails while first-match picks the earliest of the duplicates. */
  lemma FirstTitledVersusLocate(items: seq<Item>, title: string)
    ensures Locate(items, ByTitle(title)).Ok? ==> FirstTitled(items, title) == Locate(items, ByTitle(title))
    ensures Locate(items, ByTitle(title)) == Err(TitleLookupFailed) <==> FirstTitled(items, title).Err?
    ensures Locate(items, ByTitle(title)) == Err(MultipleMatchesFound) ==>
              FirstTitled(items, title).Ok? &&
              exists j :: FirstTitled(items, title).value < j < |items| && items[j].title == Some(title)
  {
    var key := ByTitle(title);
    if Locate(items, key) == Err(MultipleMatchesFound) {
      var i, j :| 0 <= i < j < |items| && Matches(items[i], key) && Matches(items[j], key);
      var f := FirstTitled(items, title);
      assert f.Ok? && f.value <= i;
      assert f.value < j && items[j].title == Some(title);
    }
  }
}
