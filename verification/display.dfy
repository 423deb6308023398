/**
 * Building the list screen from the records: `displayImagesandInfo` creates
 * one view per record, in order, with `setCustomViewPropertiesandElements`
 * filling its labels and tagging its image view with the record's index;
 * `petImageTapped` maps a tapped view back to its record through that tag.
 */
module Display {
  import opened Text
  import opened Records

  /**
   * The parts of a `PetImageandTextDisplayView` the app reads back: the three
   * label texts, the image view's tag, and the URL its image is loaded from.
   */
  datatype CustomView = CustomView(
    descriptionText: string,
    createdText: string,
    titleText: string,
    tag: nat,
    imageSource: string
  )

  const BioPrefix: string := "Paw Bio: "
  const MadeOnPrefix: string := "Made on: "
  const NamePrefix: string := "Name: "

  /**
   * `setCustomViewPropertiesandElements`: labels are fixed prefixes followed
   * by the record's description, formatted creation date and title, and the
   * tag is the record's index. `formatDate` stands for `formattingDate`.
   */
  function MakeView(rec: ImageData, index: nat, formatDate: string -> string): (v: CustomView)
    ensures IsPrefix(BioPrefix, v.descriptionText) && v.descriptionText[|BioPrefix|..] == rec.description
    ensures IsPrefix(NamePrefix, v.titleText) && v.titleText[|NamePrefix|..] == rec.title
    ensures IsPrefix(MadeOnPrefix, v.createdText) && v.createdText[|MadeOnPrefix|..] == formatDate(rec.createdDate)
    ensures v.tag == index && v.imageSource == rec.imageUrl
  {
    CustomView(BioPrefix + rec.description, MadeOnPrefix + formatDate(rec.createdDate),
               NamePrefix + rec.title, index, rec.imageUrl)
  }

  /**
   * `displayImagesandInfo`: walks the records in order, appending a view for
   * each to both the view list and the stack, and returns at the first record
   * whose URL does not parse. Only a complete walk stops the spinner
   * (`finished`). With `created` the number of views built
   * (`|views'| - |views|`): the new views are
   * the views of records 0 .. created-1, all of whose URLs parse, and when the
   * walk did not finish, record `created` is the one whose URL does not.
   */
  method DisplayImagesAndInfo(list: seq<ImageData>, views: seq<CustomView>, stack: seq<CustomView>,
                              validUrl: string -> bool, formatDate: string -> string)
    returns (views': seq<CustomView>, stack': seq<CustomView>, finished: bool)
    ensures |views| <= |views'| <= |views| + |list|
    ensures |stack'| - |stack| == |views'| - |views|
    ensures views'[..|views|] == views && stack'[..|stack|] == stack
    ensures forall j | 0 <= j < |views'| - |views| ::
      && validUrl(list[j].imageUrl)
      && views'[|views| + j] == MakeView(list[j], j, formatDate)
      && stack'[|stack| + j] == MakeView(list[j], j, formatDate)
    ensures finished <==> |views'| - |views| == |list|
    ensures !finished ==> |views'| - |views| < |list| && !validUrl(list[|views'| - |views|].imageUrl)
  {
    views', stack' := views, stack;
    var i := 0;
    while i < |list|
      invariant 0 <= i <= |list|
      invariant |views'| == |views| + i && |stack'| == |stack| + i
      invariant views'[..|views|] == views && stack'[..|stack|] == stack
      invariant forall j | 0 <= j < i ::
        && validUrl(list[j].imageUrl)
        && views'[|views| + j] == MakeView(list[j], j, formatDate)
        && stack'[|stack| + j] == MakeView(list[j], j, formatDate)
    {
      if !validUrl(list[i].imageUrl) {
        return views', stack', false;
      }
      var v := MakeView(list[i], i, formatDate);
      stack' := stack' + [v];
      views' := views' + [v];
      i := i + 1;
    }
    finished := true;
  }

  /** `petImageTapped`: the URL of the record the tapped view's tag points at. */
  function TappedImageUrl(list: seq<ImageData>, v: CustomView): (u: string)
    requires v.tag < |list|
    ensures u in set r | r in list :: r.imageUrl
  {
    list[v.tag].imageUrl
  }

  /**
   * After building the screen from an empty view list, view number i carries
   * tag i, and tapping it opens the URL its image was loaded from, the URL of
   * record i.
   */
  lemma TapFindsOwnRecord(list: seq<ImageData>, views': seq<CustomView>, stack': seq<CustomView>,
                          validUrl: string -> bool, formatDate: string -> string)
    requires |views'| <= |list|
    requires forall j | 0 <= j < |views'| :: views'[j] == MakeView(list[j], j, formatDate)
    ensures forall i | 0 <= i < |views'| ::
      && views'[i].tag == i
      && TappedImageUrl(list, views'[i]) == views'[i].imageSource == list[i].imageUrl
  {
  }
}
