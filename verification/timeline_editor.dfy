/**
 * The timeline editor: add an event (the list is then sorted by date in place), remove
 * one, show or hide the section, and choose its orientation. Each handler passes the
 * whole new timeline to `onChange`.
 */
module TimelineEditor {
  import opened Wrappers
  import opened Content
  import Collections

  /** The add form's fields. */
  datatype EventForm = EventForm(date: string, yearOnly: bool, title: string, description: string, photoRef: string)

  /** `timeline.events || []`. */
  function Events(t: Timeline): seq<TimelineEvent> {
    t.events.GetOr([])
  }

  /** `timeline.orientation || 'vertical'`. */
  function Orientation(t: Timeline): (o: string)
    ensures t.orientation.None? || t.orientation == Some("") ==> o == "vertical"
    ensures t.orientation.Some? && t.orientation.value != "" ==> o == t.orientation.value
  {
    OrDefault(t.orientation, "vertical")
  }

  /** Ascending by the parsed date; `dateValue` stands for `new Date(d)` as a number. */
  ghost predicate ByDate(s: seq<TimelineEvent>, dateValue: string -> int) {
    forall i, j :: 0 <= i < j < |s| ==> dateValue(s[i].date) <= dateValue(s[j].date)
  }

  /** `updatedEvents.sort((a, b) => new Date(a.date) - new Date(b.date))`, as an insertion sort in place. */
  method SortByDate(a: array<TimelineEvent>, dateValue: string -> int)
    modifies a
    ensures ByDate(a[..], dateValue)
    ensures multiset(a[..]) == multiset(old(a[..]))
  {
    for i := 0 to a.Length
      invariant ByDate(a[..i], dateValue)
      invariant multiset(a[..]) == multiset(old(a[..]))
    {
      var j := i;
      while j > 0 && dateValue(a[j - 1].date) > dateValue(a[j].date)
        invariant 0 <= j <= i
        invariant multiset(a[..]) == multiset(old(a[..]))
        invariant forall p, q :: 0 <= p < q <= i && q != j ==> dateValue(a[p].date) <= dateValue(a[q].date)
        invariant 0 < j < i ==> dateValue(a[j - 1].date) <= dateValue(a[j + 1].date)
      {
        SwapDown(a, j);
        j := j - 1;
      }
    }
  }

  /** Exchange the events at `j - 1` and `j`. */
  method SwapDown(a: array<TimelineEvent>, j: int)
    requires 0 < j < a.Length
    modifies a
    ensures a[..] == old(a[..])[j - 1 := old(a[j])][j := old(a[j - 1])]
    ensures multiset(a[..]) == multiset(old(a[..]))
  {
    a[j - 1], a[j] := a[j], a[j - 1];
  }

  /**
   * `handleAddEvent`: refused unless title and date are filled in; otherwise the event
   * is appended with `order` equal to the previous number of events and the list is
   * sorted by date.
   */
  method AddEvent(t: Timeline, form: EventForm, dateValue: string -> int) returns (r: Edit<Timeline>)
    ensures r.Refused? <==> form.title == "" || form.date == ""
    ensures r.Refused? ==> r.message == "Please fill in at least the title and date"
    ensures r.Changed? ==>
              var added := TimelineEvent(form.date, form.yearOnly, form.title, form.description, form.photoRef, |Events(t)|);
              && r.value.events.Some?
              && r.value == t.(events := r.value.events)
              && |r.value.events.value| == |Events(t)| + 1
              && multiset(r.value.events.value) == multiset(Events(t)) + multiset{added}
              && ByDate(r.value.events.value, dateValue)
  {
    if form.title == "" || form.date == "" {
      return Refused("Please fill in at least the title and date");
    }
    var events := Events(t);
    var added := TimelineEvent(form.date, form.yearOnly, form.title, form.description, form.photoRef, |events|);
    var a := new TimelineEvent[|events| + 1]((k: int) => if 0 <= k < |events| then events[k] else added);
    assert a[..] == events + [added];
    SortByDate(a, dateValue);
    r := Changed(t.(events := Some(a[..])));
  }

  /** `handleRemoveEvent`: the event at `index` is dropped; the other fields are kept. */
  function RemoveEvent(t: Timeline, index: int): (r: Timeline)
    ensures r.showTimeline == t.showTimeline && r.orientation == t.orientation
    ensures 0 <= index < |Events(t)| ==> Events(r) == Events(t)[..index] + Events(t)[index + 1..]
    ensures !(0 <= index < |Events(t)|) ==> Events(r) == Events(t)
  {
    t.(events := Some(Collections.RemoveAt(Events(t), index)))
  }

  /** `handleToggleTimeline`: `showTimeline` becomes `!showTimeline`, an unset flag counting as false. */
  function ToggleTimeline(t: Timeline): (r: Timeline)
    ensures r.events == t.events && r.orientation == t.orientation
    ensures r.showTimeline == Some(t.showTimeline != Some(true))
  {
    t.(showTimeline := Some(Negate(t.showTimeline)))
  }

  /** Toggling twice restores a timeline whose flag was set; an unset flag ends up false. */
  lemma ToggleTwice(t: Timeline)
    ensures t.showTimeline.Some? ==> ToggleTimeline(ToggleTimeline(t)) == t
    ensures t.showTimeline.None? ==> ToggleTimeline(ToggleTimeline(t)) == t.(showTimeline := Some(false))
  {
    match t.showTimeline
    case Some(b) =>
      assert ToggleTimeline(t).showTimeline == Some(!b);
    case None =>
  }

  /** `handleOrientationChange`: only the orientation changes. */
  function ChangeOrientation(t: Timeline, orientation: string): (r: Timeline)
    ensures r == t.(orientation := Some(orientation))
    ensures orientation != "" ==> Orientation(r) == orientation
  {
    t.(orientation := Some(orientation))
  }
}
