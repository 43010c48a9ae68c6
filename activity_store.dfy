/**
 * client-app/src/app/stores/activityStore.ts: the client's activity state.
 * The registry is a JavaScript `Map` from activity id to activity; its
 * iteration order (insertion order of the keys) is kept beside it as
 * `insertionOrder`. Each action's API call is a parameter: `apiSucceeded`,
 * or the list the server returned (absent when the call failed).
 */
module ClientActivityStore {
  import opened Wrappers
  import Seqs

  /** IActivity, with the fields the store reads. */
  datatype Activity = Activity(id: string, title: string, date: string)

  /** `s.split('.')[0]`: everything before the first '.', or all of `s` when it has none. */
  function BeforeFirstDot(s: string): (r: string)
    ensures '.' !in r
    ensures r <= s
    ensures |r| < |s| ==> s[|r|] == '.'
  {
    if s == [] || s[0] == '.' then []
    else [s[0]] + BeforeFirstDot(s[1..])
  }

  /** A string without '.' is left as it is, so truncating twice changes nothing. */
  lemma {:induction false} BeforeFirstDotIdempotent(s: string)
    ensures BeforeFirstDot(BeforeFirstDot(s)) == BeforeFirstDot(s)
    ensures '.' !in s ==> BeforeFirstDot(s) == s
  {
    if s != [] && s[0] != '.' {
      BeforeFirstDotIdempotent(s[1..]);
      assert BeforeFirstDot(s)[1..] == BeforeFirstDot(s[1..]);
    }
  }

  /** The activity as `loadActivities` stores it: the date cut at the first '.' (the fraction of a second). */
  function Truncated(a: Activity): (t: Activity)
    ensures t.id == a.id && t.title == a.title && '.' !in t.date && t.date <= a.date
  {
    a.(date := BeforeFirstDot(a.date))
  }

  /**
   * The entries `loadActivities` sets, one `Map.set` per activity in list
   * order: a later activity with the same id replaces an earlier one.
   */
  function Loaded(s: seq<Activity>): (m: map<string, Activity>)
    ensures forall i :: 0 <= i < |s| ==> s[i].id in m
    ensures forall k :: k in m ==> m[k].id == k && '.' !in m[k].date
  {
    if s == [] then map[]
    else Loaded(s[..|s| - 1])[s[|s| - 1].id := Truncated(s[|s| - 1])]
  }

  /**
   * The ids of `s` that `order` does not hold yet, each once, in the order of
   * their first occurrence in `s`: the keys successive `Map.set` calls append.
   */
  function NewIds(order: seq<string>, s: seq<Activity>): (r: seq<string>)
    ensures forall k :: k in r ==> k !in order
    ensures forall i :: 0 <= i < |s| ==> s[i].id in order || s[i].id in r
    ensures forall k :: multiset(r)[k] <= 1
    ensures forall k :: k in r ==> exists i :: 0 <= i < |s| && s[i].id == k
  {
    if s == [] then []
    else
      var prev := NewIds(order, s[..|s| - 1]);
      var id := s[|s| - 1].id;
      assert forall i :: 0 <= i < |s| - 1 ==> s[i] == s[..|s| - 1][i];
      if id in order || id in prev then prev else prev + [id]
  }

  /** One more activity appends its id exactly when the order does not hold it yet. */
  lemma NewIdsStep(order: seq<string>, s: seq<Activity>, i: nat)
    requires i < |s|
    ensures order + NewIds(order, s[..i + 1])
         == var cur := order + NewIds(order, s[..i]);
            if s[i].id in cur then cur else cur + [s[i].id]
  {
    assert s[..i + 1][..i] == s[..i];
  }

  /** Only ids of the response become keys. */
  lemma {:induction false} LoadedKeys(s: seq<Activity>, k: string)
    requires k in Loaded(s)
    ensures exists i :: 0 <= i < |s| && s[i].id == k
  {
    if s != [] && k != s[|s| - 1].id {
      LoadedKeys(s[..|s| - 1], k);
      var i :| 0 <= i < |s| - 1 && s[..|s| - 1][i].id == k;
      assert s[i].id == k;
    }
  }

  /** Each key holds the last activity of the response with that id, date truncated. */
  lemma {:induction false} LoadedLastWins(s: seq<Activity>, i: nat)
    requires i < |s|
    requires forall j :: i < j < |s| ==> s[j].id != s[i].id
    ensures Loaded(s)[s[i].id] == Truncated(s[i])
  {
    if i < |s| - 1 {
      var init := s[..|s| - 1];
      assert init[i] == s[i];
      assert forall j :: i < j < |init| ==> init[j] == s[j];
      LoadedLastWins(init, i);
    }
  }

  /** Date order under `dateValue`, the oracle standing for `Date.parse`. */
  ghost predicate SortedByDate(s: seq<Activity>, dateValue: string -> int)
  {
    forall i, j :: 0 <= i < j < |s| ==> dateValue(s[i].date) <= dateValue(s[j].date)
  }

  /** An element no later than anything in a date-ordered list can go in front of it. */
  lemma SortedCons(h: Activity, rest: seq<Activity>, dateValue: string -> int)
    requires SortedByDate(rest, dateValue)
    requires forall x :: x in rest ==> dateValue(h.date) <= dateValue(x.date)
    ensures SortedByDate([h] + rest, dateValue)
  {
    var r := [h] + rest;
    forall i, j | 0 <= i < j < |r|
      ensures dateValue(r[i].date) <= dateValue(r[j].date)
    {
      assert r[j] == rest[j - 1];
      if i > 0 {
        assert r[i] == rest[i - 1];
      }
    }
  }

  /** Puts `a` just before the first element that is not earlier than it. */
  function InsertByDate(a: Activity, sorted: seq<Activity>, dateValue: string -> int): (r: seq<Activity>)
    requires SortedByDate(sorted, dateValue)
    ensures multiset(r) == multiset(sorted) + multiset{a}
    ensures |r| == |sorted| + 1
    ensures forall x :: x in r <==> x == a || x in sorted
    ensures SortedByDate(r, dateValue)
  {
    if sorted == [] then [a]
    else if dateValue(a.date) <= dateValue(sorted[0].date) then
      assert forall x :: x in sorted ==> dateValue(a.date) <= dateValue(x.date) by {
        forall x | x in sorted
          ensures dateValue(a.date) <= dateValue(x.date)
        {
          var k :| 0 <= k < |sorted| && sorted[k] == x;
          if k > 0 {
            assert dateValue(sorted[0].date) <= dateValue(sorted[k].date);
          }
        }
      }
      SortedCons(a, sorted, dateValue);
      [a] + sorted
    else
      var tail := sorted[1..];
      assert SortedByDate(tail, dateValue) by {
        forall i, j | 0 <= i < j < |tail|
          ensures dateValue(tail[i].date) <= dateValue(tail[j].date)
        {
          assert tail[i] == sorted[i + 1] && tail[j] == sorted[j + 1];
        }
      }
      var rest := InsertByDate(a, tail, dateValue);
      assert sorted == [sorted[0]] + tail;
      assert forall x :: x in rest ==> dateValue(sorted[0].date) <= dateValue(x.date) by {
        forall x | x in rest
          ensures dateValue(sorted[0].date) <= dateValue(x.date)
        {
          if x != a {
            var k :| 0 <= k < |tail| && tail[k] == x;
            assert sorted[k + 1] == x;
          }
        }
      }
      SortedCons(sorted[0], rest, dateValue);
      [sorted[0]] + rest
  }

  /**
   * `sort((a, b) => Date.parse(a.date) - Date.parse(b.date))`, as a stable
   * insertion sort: activities whose dates compare equal keep their order.
   */
  function SortByDate(s: seq<Activity>, dateValue: string -> int): (r: seq<Activity>)
    ensures multiset(r) == multiset(s)
    ensures |r| == |s|
    ensures forall x :: x in r <==> x in s
    ensures SortedByDate(r, dateValue)
  {
    if s == [] then []
    else
      assert s == [s[0]] + s[1..];
      InsertByDate(s[0], SortByDate(s[1..], dateValue), dateValue)
  }

  /** The values of the registry in the order its keys were first set. */
  function ValuesInOrder(order: seq<string>, registry: map<string, Activity>): (r: seq<Activity>)
    requires forall k :: k in order ==> k in registry
    ensures |r| == |order|
    ensures forall i :: 0 <= i < |order| ==> r[i] == registry[order[i]]
  {
    if order == [] then [] else [registry[order[0]]] + ValuesInOrder(order[1..], registry)
  }

  /** Setting a key after a merge is merging the updated map. */
  lemma MergeUpdate(base: map<string, Activity>, m: map<string, Activity>, k: string, v: Activity)
    ensures (base + m)[k := v] == base + m[k := v]
  {
  }

  /** The keys left after `Map.delete(key)`, in their order. */
  function WithoutKey(order: seq<string>, key: string): (r: seq<string>)
    ensures forall k :: k in r <==> k in order && k != key
    ensures |r| <= |order|
  {
    Seqs.Filter(order, (k: string) => k != key)
  }

  class ActivityStore {
    var activityRegistry: map<string, Activity>
    /** The registry's keys in JavaScript `Map` iteration order. */
    var insertionOrder: seq<string>
    var loadingInitial: bool
    var selectedActivity: Option<Activity>
    var editMode: bool
    var submitting: bool
    /** Name of the button whose deletion is in progress, or "". */
    var target: string

    /**
     * `insertionOrder` lists each key of the registry once, and every entry
     * is stored under its own activity's id.
     */
    ghost predicate Valid()
      reads this
    {
      && (forall k :: multiset(insertionOrder)[k] <= 1)
      && (forall k :: k in activityRegistry <==> k in insertionOrder)
      && (forall k :: k in activityRegistry ==> activityRegistry[k].id == k)
    }

    constructor ()
      ensures Valid()
      ensures activityRegistry == map[] && insertionOrder == [] && selectedActivity.None?
      ensures !loadingInitial && !editMode && !submitting && target == ""
    {
      activityRegistry := map[];
      insertionOrder := [];
      loadingInitial := false;
      selectedActivity := None;
      editMode := false;
      submitting := false;
      target := "";
    }

    /** `Array.from(activityRegistry.values())`. */
    function Values(): (r: seq<Activity>)
      reads this
      requires Valid()
      ensures |r| == |insertionOrder|
      ensures forall a :: a in r <==> a in activityRegistry.Values
    {
      var r := ValuesInOrder(insertionOrder, activityRegistry);
      assert forall a :: a in activityRegistry.Values ==> a in r by {
        forall a | a in activityRegistry.Values
          ensures a in r
        {
          var k :| k in activityRegistry && activityRegistry[k] == a;
          var i :| 0 <= i < |insertionOrder| && insertionOrder[i] == k;
          assert r[i] == a;
        }
      }
      r
    }

    /** `activitiesByDate`: every registered activity once, earliest date first. */
    function ActivitiesByDate(dateValue: string -> int): (r: seq<Activity>)
      reads this
      requires Valid()
      ensures SortedByDate(r, dateValue)
      ensures multiset(r) == multiset(Values())
      ensures forall a :: a in r <==> a in activityRegistry.Values
    {
      SortByDate(Values(), dateValue)
    }

    /** `activityRegistry.set(key, value)`: a new key goes to the end of the iteration order. */
    method Put(key: string, value: Activity)
      requires Valid() && value.id == key
      modifies this
      ensures Valid()
      ensures activityRegistry == old(activityRegistry)[key := value]
      ensures insertionOrder == if key in old(activityRegistry) then old(insertionOrder) else old(insertionOrder) + [key]
      ensures loadingInitial == old(loadingInitial) && selectedActivity == old(selectedActivity)
      ensures editMode == old(editMode) && submitting == old(submitting) && target == old(target)
    {
      if key !in activityRegistry {
        insertionOrder := insertionOrder + [key];
      }
      activityRegistry := activityRegistry[key := value];
    }

    /** `activityRegistry.delete(key)`. */
    method Remove(key: string)
      requires Valid()
      modifies this
      ensures Valid()
      ensures activityRegistry == old(activityRegistry) - {key}
      ensures insertionOrder == WithoutKey(old(insertionOrder), key)
      ensures loadingInitial == old(loadingInitial) && selectedActivity == old(selectedActivity)
      ensures editMode == old(editMode) && submitting == old(submitting) && target == old(target)
    {
      forall k
        ensures multiset(WithoutKey(insertionOrder, key))[k] <= multiset(insertionOrder)[k]
      {
        Seqs.FilterCount(insertionOrder, (k: string) => k != key, k);
      }
      insertionOrder := WithoutKey(insertionOrder, key);
      activityRegistry := activityRegistry - {key};
    }

    method CancelFormOpen()
      modifies this
      ensures !editMode
      ensures activityRegistry == old(activityRegistry) && insertionOrder == old(insertionOrder)
      ensures loadingInitial == old(loadingInitial) && selectedActivity == old(selectedActivity)
      ensures submitting == old(submitting) && target == old(target)
    {
      editMode := false;
    }

    method CancelSelectedActivity()
      modifies this
      ensures selectedActivity.None?
      ensures activityRegistry == old(activityRegistry) && insertionOrder == old(insertionOrder)
      ensures loadingInitial == old(loadingInitial) && editMode == old(editMode)
      ensures submitting == old(submitting) && target == old(target)
    {
      selectedActivity := None;
    }

    /** `createActivity`: registers the activity once the server has it and closes the form. */
    method CreateActivity(activity: Activity, apiSucceeded: bool)
      requires Valid()
      modifies this
      ensures Valid()
      ensures apiSucceeded ==> activityRegistry == old(activityRegistry)[activity.id := activity] && !editMode
      ensures apiSucceeded ==> insertionOrder == if activity.id in old(activityRegistry) then old(insertionOrder)
                                                 else old(insertionOrder) + [activity.id]
      ensures !apiSucceeded ==> activityRegistry == old(activityRegistry) && insertionOrder == old(insertionOrder)
                                && editMode == old(editMode)
      ensures !submitting
      ensures loadingInitial == old(loadingInitial) && selectedActivity == old(selectedActivity) && target == old(target)
    {
      submitting := true;
      if apiSucceeded {
        Put(activity.id, activity);
        editMode := false;
      }
      submitting := false;
    }

    /**
     * `deleteActivity`: `targetName` is the name of the button pressed; it is
     * the target while the call runs and is cleared afterwards.
     */
    method DeleteActivity(targetName: string, id: string, apiSucceeded: bool)
      requires Valid()
      modifies this
      ensures Valid()
      ensures apiSucceeded ==> activityRegistry == old(activityRegistry) - {id}
                               && insertionOrder == WithoutKey(old(insertionOrder), id)
      ensures !apiSucceeded ==> activityRegistry == old(activityRegistry) && insertionOrder == old(insertionOrder)
      ensures !submitting && target == ""
      ensures loadingInitial == old(loadingInitial) && selectedActivity == old(selectedActivity) && editMode == old(editMode)
    {
      submitting := true;
      target := targetName;
      if apiSucceeded {
        Remove(id);
      }
      submitting := false;
      target := "";
    }

    /** `editActivity`: replaces the entry, shows the edited activity and closes the form. */
    method EditActivity(activity: Activity, apiSucceeded: bool)
      requires Valid()
      modifies this
      ensures Valid()
      ensures apiSucceeded ==> activityRegistry == old(activityRegistry)[activity.id := activity]
                               && selectedActivity == Some(activity) && !editMode
      ensures apiSucceeded ==> insertionOrder == if activity.id in old(activityRegistry) then old(insertionOrder)
                                                 else old(insertionOrder) + [activity.id]
      ensures !apiSucceeded ==> activityRegistry == old(activityRegistry) && insertionOrder == old(insertionOrder)
                                && selectedActivity == old(selectedActivity) && editMode == old(editMode)
      ensures !submitting
      ensures loadingInitial == old(loadingInitial) && target == old(target)
    {
      submitting := true;
      if apiSucceeded {
        Put(activity.id, activity);
        selectedActivity := Some(activity);
        editMode := false;
      }
      submitting := false;
    }

    /**
     * `loadActivities`: every activity of the response is set under its id
     * with its date truncated; entries already registered under other ids
     * stay, and keys already registered keep their place in the order.
     */
    method LoadActivities(response: Option<seq<Activity>>)
      requires Valid()
      modifies this
      ensures Valid()
      ensures response.None? ==> activityRegistry == old(activityRegistry) && insertionOrder == old(insertionOrder)
      ensures response.Some? ==> activityRegistry == old(activityRegistry) + Loaded(response.value)
      ensures response.Some? ==> insertionOrder == old(insertionOrder) + NewIds(old(insertionOrder), response.value)
      ensures old(insertionOrder) <= insertionOrder
      ensures !loadingInitial
      ensures selectedActivity == old(selectedActivity) && editMode == old(editMode)
      ensures submitting == old(submitting) && target == old(target)
    {
      loadingInitial := true;
      if response.Some? {
        var activities := response.value;
        for i := 0 to |activities|
          invariant Valid()
          invariant activityRegistry == old(activityRegistry) + Loaded(activities[..i])
          invariant insertionOrder == old(insertionOrder) + NewIds(old(insertionOrder), activities[..i])
          invariant selectedActivity == old(selectedActivity) && editMode == old(editMode)
          invariant submitting == old(submitting) && target == old(target)
        {
          var a := activities[i];
          assert activities[..i + 1][..i] == activities[..i];
          assert Loaded(activities[..i + 1]) == Loaded(activities[..i])[a.id := Truncated(a)];
          NewIdsStep(old(insertionOrder), activities, i);
          assert a.id in activityRegistry <==> a.id in insertionOrder;
          MergeUpdate(old(activityRegistry), Loaded(activities[..i]), a.id, Truncated(a));
          Put(a.id, Truncated(a));
        }
        assert activities[..|activities|] == activities;
      }
      loadingInitial := false;
    }

    method OpenCreateForm()
      modifies this
      ensures editMode && selectedActivity.None?
      ensures activityRegistry == old(activityRegistry) && insertionOrder == old(insertionOrder)
      ensures loadingInitial == old(loadingInitial) && submitting == old(submitting) && target == old(target)
    {
      editMode := true;
      selectedActivity := None;
    }

    /** `openEditForm`: selects the registered activity with that id (none if unknown) and opens the form. */
    method OpenEditForm(id: string)
      modifies this
      ensures selectedActivity == if id in activityRegistry then Some(activityRegistry[id]) else None
      ensures editMode
      ensures activityRegistry == old(activityRegistry) && insertionOrder == old(insertionOrder)
      ensures loadingInitial == old(loadingInitial) && submitting == old(submitting) && target == old(target)
    {
      selectedActivity := if id in activityRegistry then Some(activityRegistry[id]) else None;
      editMode := true;
    }

    /** `selectActivity`: selects the registered activity with that id (none if unknown) and closes the form. */
    method SelectActivity(id: string)
      modifies this
      ensures selectedActivity == if id in activityRegistry then Some(activityRegistry[id]) else None
      ensures !editMode
      ensures activityRegistry == old(activityRegistry) && insertionOrder == old(insertionOrder)
      ensures loadingInitial == old(loadingInitial) && submitting == old(submitting) && target == old(target)
    {
      selectedActivity := if id in activityRegistry then Some(activityRegistry[id]) else None;
      editMode := false;
    }
  }
}
