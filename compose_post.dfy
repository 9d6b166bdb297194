/**
 * The compose form of src/components/ComposePost.tsx: the pure state
 * updaters (platform toggle, image removal), the draft built on submit,
 * the submit-button condition, and the form state as a class whose
 * methods are the event handlers.
 */
module ComposePost {
  import opened Wrappers
  import opened Types
  import opened Text

  /** The character limit of the textarea and of the submit button. */
  const MaxLength := 280

  /** `prev.filter(id => id !== platformId)`: every occurrence of `x` removed, the rest in order. */
  function Without(s: seq<string>, x: string): (r: seq<string>)
    ensures |r| <= |s| && x !in r
  {
    if s == [] then []
    else (if s[0] == x then [] else [s[0]]) + Without(s[1..], x)
  }

  /** Removing `x` keeps every other element, and changes nothing when `x` is absent. */
  lemma {:induction false} WithoutKeepsOthers(s: seq<string>, x: string)
    ensures forall y :: y != x ==> (y in Without(s, x) <==> y in s)
    ensures x !in s ==> Without(s, x) == s
  {
    if s != [] {
      WithoutKeepsOthers(s[1..], x);
      assert s == [s[0]] + s[1..];
    }
  }

  lemma {:induction false} WithoutAppend(s: seq<string>, t: seq<string>, x: string)
    ensures Without(s + t, x) == Without(s, x) + Without(t, x)
  {
    if s == [] {
      assert s + t == t;
    } else {
      var h := if s[0] == x then [] else [s[0]];
      assert (s + t)[0] == s[0];
      assert (s + t)[1..] == s[1..] + t;
      WithoutAppend(s[1..], t, x);
      assert Without(s + t, x) == h + Without(s[1..] + t, x);
      assert Without(s, x) == h + Without(s[1..], x);
    }
  }

  /** `handlePlatformToggle`'s updater: removes the id when selected, appends it otherwise. */
  function TogglePlatform(selected: seq<string>, platformId: string): seq<string> {
    if platformId in selected then Without(selected, platformId) else selected + [platformId]
  }

  /**
   * Toggling flips the membership of that id and keeps every other id, with
   * the other ids in their order.
   */
  lemma TogglePlatformSpec(selected: seq<string>, platformId: string)
    ensures var r := TogglePlatform(selected, platformId);
      && (platformId in r <==> platformId !in selected)
      && (forall y :: y != platformId ==> (y in r <==> y in selected))
      && Without(r, platformId) == Without(selected, platformId)
  {
    var r := TogglePlatform(selected, platformId);
    WithoutKeepsOthers(selected, platformId);
    if platformId !in selected {
      WithoutAppend(selected, [platformId], platformId);
      assert Without([platformId], platformId) == [];
      assert r == selected + [platformId];
      assert Without(r, platformId) == Without(selected, platformId) + [];
    } else {
      WithoutKeepsOthers(r, platformId);
    }
  }

  /** Toggling an unselected id twice restores the selection. */
  lemma ToggleTwice(selected: seq<string>, platformId: string)
    requires platformId !in selected
    ensures TogglePlatform(TogglePlatform(selected, platformId), platformId) == selected
  {
    WithoutAppend(selected, [platformId], platformId);
    WithoutKeepsOthers(selected, platformId);
    assert Without([platformId], platformId) == [];
  }

  /** `prev.filter((_, i) => i !== index)`: positions are counted from `index` downwards as the list is walked. */
  function RemoveImage(images: seq<string>, index: int): (r: seq<string>)
    ensures 0 <= index < |images| ==> r == images[..index] + images[index + 1..]
    ensures !(0 <= index < |images|) ==> r == images
  {
    if images == [] then []
    else
      var rest := RemoveImage(images[1..], index - 1);
      if index == 0 then rest
      else
        assert 0 < index < |images| ==> images[1..][..index - 1] == images[1..index];
        assert 0 < index < |images| ==> images[1..][index..] == images[index + 1..];
        [images[0]] + rest
  }

  /** `handleSubmit`'s guard: non-blank content and at least one platform. The length is not checked here. */
  predicate SubmitAccepts(content: string, selectedPlatforms: seq<string>) {
    !(Trim(content) == [] || |selectedPlatforms| == 0)
  }

  /** The submit button's enabling condition. */
  predicate CanSubmit(content: string, selectedPlatforms: seq<string>, isSubmitting: bool) {
    !(Trim(content) == [] || |selectedPlatforms| == 0 || isSubmitting || |content| > MaxLength)
  }

  /**
   * The button is enabled exactly when the content is not white space only,
   * a platform is selected, no submit is running and the content is at most
   * 280 characters; whatever it enables, the handler's own guard accepts.
   */
  lemma CanSubmitIff(content: string, selectedPlatforms: seq<string>, isSubmitting: bool)
    ensures CanSubmit(content, selectedPlatforms, isSubmitting) <==>
      !AllWhite(content) && |selectedPlatforms| > 0 && !isSubmitting && |content| <= MaxLength
    ensures CanSubmit(content, selectedPlatforms, isSubmitting) ==> SubmitAccepts(content, selectedPlatforms)
  {
    TrimEmptyIff(content);
  }

  /** The handler itself lets through content longer than the limit. */
  lemma GuardIgnoresLength()
    ensures var long := seq(MaxLength + 1, _ => 'a');
      SubmitAccepts(long, ["twitter"]) && !CanSubmit(long, ["twitter"], false)
  {
    var long := seq(MaxLength + 1, _ => 'a');
    assert long[0] == 'a' && !IsWhite(long[0]);
    TrimEmptyIff(long);
  }

  /**
   * The draft `handleSubmit` hands to `onCreatePost`. `scheduledTime` is what
   * `new Date(scheduledDate)` gives and `now` what `new Date()` gives.
   */
  function BuildDraft(content: string, selectedPlatforms: seq<string>, images: seq<string>,
                      isScheduled: bool, scheduledDate: string, scheduledTime: int, now: int): PostDraft
  {
    PostDraft(
      Trim(content),
      if |images| > 0 then Some(images) else None,
      selectedPlatforms,
      if isScheduled then Scheduled else Published,
      if isScheduled && scheduledDate != [] then Some(scheduledTime) else None,
      if !isScheduled then Some(now) else None)
  }

  /**
   * The draft carries the trimmed content and the selected platforms; it is
   * scheduled exactly when the form is, published otherwise; `publishedAt`
   * is set exactly when it is not scheduled, `scheduledAt` exactly when it is
   * scheduled with a date, never both; the image list is absent when empty
   * and otherwise kept as it is.
   */
  lemma BuildDraftSpec(content: string, selectedPlatforms: seq<string>, images: seq<string>,
                       isScheduled: bool, scheduledDate: string, scheduledTime: int, now: int)
    ensures var d := BuildDraft(content, selectedPlatforms, images, isScheduled, scheduledDate, scheduledTime, now);
      && d.content == Trim(content) && d.content == Trim(d.content) && (d.content == [] <==> AllWhite(content))
      && d.platforms == selectedPlatforms
      && (d.status == Scheduled <==> isScheduled) && (d.status == Published <==> !isScheduled)
      && (d.publishedAt.Some? <==> !isScheduled) && (d.publishedAt.Some? ==> d.publishedAt.value == now)
      && (d.scheduledAt.Some? <==> isScheduled && scheduledDate != [])
      && (d.scheduledAt.Some? ==> d.scheduledAt.value == scheduledTime)
      && !(d.scheduledAt.Some? && d.publishedAt.Some?)
      && d.images != Some([]) && d.images.GetOr([]) == images
  {
    TrimIdempotent(content);
    TrimEmptyIff(content);
  }

  /** A scheduled submit with an empty date gives a scheduled draft without `scheduledAt`. */
  lemma ScheduledWithoutDate(content: string, selectedPlatforms: seq<string>, images: seq<string>, scheduledTime: int, now: int)
    ensures var d := BuildDraft(content, selectedPlatforms, images, true, "", scheduledTime, now);
      d.status == Scheduled && d.scheduledAt == None && d.publishedAt == None
  {
  }

  /** The form's state, one field per `useState`. */
  class ComposeForm {
    var content: string
    var selectedPlatforms: seq<string>
    var images: seq<string>
    var isScheduled: bool
    var scheduledDate: string
    var isSubmitting: bool

    /** The form's state when nothing has been entered. */
    ghost predicate IsEmpty()
      reads this
    {
      |content| == 0 && |selectedPlatforms| == 0 && |images| == 0 && !isScheduled && |scheduledDate| == 0
    }

    constructor ()
      ensures IsEmpty() && !isSubmitting
    {
      content, selectedPlatforms, images := [], [], [];
      isScheduled, scheduledDate, isSubmitting := false, [], false;
    }

    /** The textarea's `onChange`. */
    method SetContent(text: string)
      modifies this
      ensures content == text
      ensures selectedPlatforms == old(selectedPlatforms) && images == old(images)
      ensures isScheduled == old(isScheduled) && scheduledDate == old(scheduledDate) && isSubmitting == old(isSubmitting)
    {
      content := text;
    }

    /** `handlePlatformToggle`. */
    method TogglePlatformSelection(platformId: string)
      modifies this
      ensures selectedPlatforms == TogglePlatform(old(selectedPlatforms), platformId)
      ensures content == old(content) && images == old(images)
      ensures isScheduled == old(isScheduled) && scheduledDate == old(scheduledDate) && isSubmitting == old(isSubmitting)
    {
      selectedPlatforms := TogglePlatform(selectedPlatforms, platformId);
    }

    /** `handleImageUpload`: the new image references are appended; no files appends nothing. */
    method AddImages(newImages: seq<string>)
      modifies this
      ensures images == old(images) + newImages
      ensures content == old(content) && selectedPlatforms == old(selectedPlatforms)
      ensures isScheduled == old(isScheduled) && scheduledDate == old(scheduledDate) && isSubmitting == old(isSubmitting)
    {
      images := images + newImages;
    }

    /** `removeImage`. */
    method RemoveImageAt(index: int)
      modifies this
      ensures images == RemoveImage(old(images), index)
      ensures content == old(content) && selectedPlatforms == old(selectedPlatforms)
      ensures isScheduled == old(isScheduled) && scheduledDate == old(scheduledDate) && isSubmitting == old(isSubmitting)
    {
      images := RemoveImage(images, index);
    }

    /** The schedule checkbox's `onChange`. */
    method SetScheduled(checked: bool)
      modifies this
      ensures isScheduled == checked
      ensures content == old(content) && selectedPlatforms == old(selectedPlatforms) && images == old(images)
      ensures scheduledDate == old(scheduledDate) && isSubmitting == old(isSubmitting)
    {
      isScheduled := checked;
    }

    /** The date input's `onChange`. */
    method SetScheduledDate(date: string)
      modifies this
      ensures scheduledDate == date
      ensures content == old(content) && selectedPlatforms == old(selectedPlatforms) && images == old(images)
      ensures isScheduled == old(isScheduled) && isSubmitting == old(isSubmitting)
    {
      scheduledDate := date;
    }

    /**
     * `handleSubmit`. When the guard refuses, nothing is produced and the form
     * is unchanged. Otherwise the draft is returned for `onCreatePost`, the form
     * is reset and `isSubmitting` ends false.
     */
    method Submit(scheduledTime: int, now: int) returns (draft: Option<PostDraft>)
      modifies this
      ensures draft.Some? <==> SubmitAccepts(old(content), old(selectedPlatforms))
      ensures draft.None? ==> unchanged(this)
      ensures draft.Some? ==> draft.value == BuildDraft(old(content), old(selectedPlatforms), old(images),
                                                        old(isScheduled), old(scheduledDate), scheduledTime, now)
      ensures draft.Some? ==> IsEmpty() && !isSubmitting
    {
      if SubmitAccepts(content, selectedPlatforms) {
        isSubmitting := true;
        var d := BuildDraft(content, selectedPlatforms, images, isScheduled, scheduledDate, scheduledTime, now);
        draft := Some(d);
        content, selectedPlatforms, images := [], [], [];
        isScheduled, scheduledDate := false, [];
        isSubmitting := false;
      } else {
        draft := None;
      }
    }
  }

  /** A reset form cannot be submitted: the button is disabled until content and a platform are entered again. */
  lemma ResetFormDisabled()
    ensures !CanSubmit([], [], false)
    ensures CanSubmit("Hello world", ["twitter"], false)
  {
    var h := "Hello world";
    assert !IsWhite(h[0]);
    TrimEmptyIff(h);
  }
}
