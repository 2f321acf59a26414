/** The tracker's store and the updates its handlers make to it: a map from day
    to topic id to topic, each topic holding an ordered list of resources. */
module Store {
  import opened Options
  import opened Strings

  /** A link or note attached to a topic. `editedAt` is present once the
      resource has been edited. */
  datatype Resource = Resource(
    title: string, url: string, buttonText: string, description: string,
    time: string, screenshot: string, addedAt: string, editedAt: Option<string>)

  datatype Topic = Topic(title: string, resources: seq<Resource>, createdAt: string)

  /** The topics of one day, by topic id. */
  type Day = map<string, Topic>

  /** The whole store, by day number. */
  type Data = map<int, Day>

  /** The invariant the handlers keep: a day has a record only while it has topics. */
  predicate NoEmptyDays(data: Data) {
    forall d :: d in data ==> |data[d]| > 0
  }

  /** `state.data[day] || {}`. */
  function DayOf(data: Data, day: int): Day {
    if day in data then data[day] else map[]
  }

  /** The topic count shown on a day's card (`Object.keys(dayData).length`). */
  function TopicCount(data: Data, day: int): nat {
    |DayOf(data, day)|
  }

  /** A day shows a count badge exactly when it has a record. */
  lemma BadgeIffRecord(data: Data, day: int)
    requires NoEmptyDays(data)
    ensures TopicCount(data, day) > 0 <==> day in data
  {
    if day !in data {
      assert DayOf(data, day) == map[];
    }
  }

  /** `state.data[day][id] = topic`, after creating the day's record when it was
      missing. */
  function WithTopic(data: Data, day: int, id: string, topic: Topic): Data {
    data[day := DayOf(data, day)[id := topic]]
  }

  /** What `WithTopic` does: the day gains `id` (replacing a topic of the same
      id), every other day and topic is as before, the day's count grows by one
      exactly when `id` is new, and no empty record appears. */
  lemma WithTopicEffect(data: Data, day: int, id: string, topic: Topic)
    ensures var r := WithTopic(data, day, id, topic);
      && r.Keys == data.Keys + {day}
      && r[day].Keys == DayOf(data, day).Keys + {id} && r[day][id] == topic
      && (forall t :: t != id && t in DayOf(data, day) ==> t in r[day] && r[day][t] == DayOf(data, day)[t])
      && (forall d :: d in data && d != day ==> r[d] == data[d])
      && TopicCount(r, day) == TopicCount(data, day) + (if id in DayOf(data, day) then 0 else 1)
      && (NoEmptyDays(data) ==> NoEmptyDays(r))
  {
    var record := DayOf(data, day)[id := topic];
    TopicAdded(DayOf(data, day), id, topic);
    DayReplaced(data, day, record);
  }

  /** `delete state.data[day][id]`, then the day's record deleted when that left
      it empty. */
  function WithoutTopic(data: Data, day: int, id: string): Data
    requires day in data
  {
    var rest := data[day] - {id};
    if |rest| == 0 then data - {day} else data[day := rest]
  }

  /** What `WithoutTopic` does: no empty record remains for `day`, the day loses
      exactly `id`, its count drops by one exactly when `id` was there, and every
      other day and topic is as before. */
  lemma WithoutTopicEffect(data: Data, day: int, id: string)
    requires day in data
    ensures var r := WithoutTopic(data, day, id);
      && (day in r <==> data[day].Keys - {id} != {})
      && (day in r ==> r[day].Keys == data[day].Keys - {id} && |r[day]| > 0)
      && (day in r ==> forall t :: t in r[day] ==> t in data[day] && r[day][t] == data[day][t])
      && (forall d :: d != day ==> (d in r <==> d in data))
      && (forall d :: d in data && d != day ==> r[d] == data[d])
      && TopicCount(r, day) == TopicCount(data, day) - (if id in data[day] then 1 else 0)
      && (NoEmptyDays(data) ==> NoEmptyDays(r))
  {
    var rest := data[day] - {id};
    TopicRemoved(data[day], id);
    if |rest| == 0 {
      DayDropped(data, day);
    } else {
      DayReplaced(data, day, rest);
    }
  }

  /** Adding a key to a day's record adds exactly that key. */
  lemma TopicAdded(record: Day, id: string, topic: Topic)
    ensures record[id := topic].Keys == record.Keys + {id}
    ensures |record[id := topic]| == |record| + (if id in record then 0 else 1)
  {
  }

  /** Removing a key from a day's record removes exactly that key. */
  lemma TopicRemoved(record: Day, id: string)
    ensures (record - {id}).Keys == record.Keys - {id}
    ensures |record - {id}| == |record| - (if id in record then 1 else 0)
    ensures |record - {id}| == 0 <==> record.Keys - {id} == {}
  {
    assert |(record - {id}).Keys| == |record - {id}|;
  }

  /** Dropping `day`'s record touches no other day and keeps the invariant. */
  lemma DayDropped(data: Data, day: int)
    ensures (data - {day}).Keys == data.Keys - {day}
    ensures forall d :: d in data && d != day ==> (data - {day})[d] == data[d]
    ensures NoEmptyDays(data) ==> NoEmptyDays(data - {day})
  {
  }

  /** Giving `day` a non-empty record touches no other day and keeps the invariant. */
  lemma DayReplaced(data: Data, day: int, record: Day)
    requires |record| > 0
    ensures data[day := record].Keys == data.Keys + {day}
    ensures forall d :: d in data && d != day ==> data[day := record][d] == data[d]
    ensures NoEmptyDays(data) ==> NoEmptyDays(data[day := record])
  {
    var r := data[day := record];
    if NoEmptyDays(data) {
      forall d | d in r ensures |r[d]| > 0 {
        if d != day {
          assert d in data;
        }
      }
    }
  }

  /** Deleting a topic just created under a fresh id gives back the store as it
      was, including the absence of the day's record if the topic was its first. */
  lemma RemoveAfterAdd(data: Data, day: int, id: string, topic: Topic)
    requires NoEmptyDays(data)
    requires id !in DayOf(data, day)
    ensures WithoutTopic(WithTopic(data, day, id, topic), day, id) == data
  {
    assert WithTopic(data, day, id, topic) == data[day := DayOf(data, day)[id := topic]];
    RemoveFromAdded(data, day, id, topic);
  }

  lemma RemoveFromAdded(data: Data, day: int, id: string, topic: Topic)
    requires day in data ==> |data[day]| > 0
    requires id !in DayOf(data, day)
    ensures WithoutTopic(data[day := DayOf(data, day)[id := topic]], day, id) == data
  {
    var added := data[day := DayOf(data, day)[id := topic]];
    FreshKeyRemoved(DayOf(data, day), id, topic);
    if day in data {
      assert added[day := data[day]] == data;
    } else {
      assert added - {day} == data;
    }
  }

  lemma FreshKeyRemoved(m: Day, id: string, topic: Topic)
    requires id !in m
    ensures m[id := topic] - {id} == m
  {
  }

  /** Replaces the resources of topic `id` on `day`; its title and creation time
      stay, and every other day and topic is as before. */
  function WithResources(data: Data, day: int, id: string, resources: seq<Resource>): (r: Data)
    requires day in data && id in data[day]
    ensures r.Keys == data.Keys && r[day].Keys == data[day].Keys
    ensures r[day][id].resources == resources
    ensures r[day][id].title == data[day][id].title && r[day][id].createdAt == data[day][id].createdAt
    ensures forall t :: t in data[day] && t != id ==> r[day][t] == data[day][t]
    ensures forall d :: d in data && d != day ==> r[d] == data[d]
    ensures NoEmptyDays(data) ==> NoEmptyDays(r)
  {
    data[day := data[day][id := data[day][id].(resources := resources)]]
  }

  /** `s` without its element at `k`, the later ones moving down one place. */
  function RemoveAt<T>(s: seq<T>, k: nat): (r: seq<T>)
    requires k < |s|
    ensures |r| == |s| - 1
    ensures forall j :: 0 <= j < k ==> r[j] == s[j]
    ensures forall j :: k <= j < |r| ==> r[j] == s[j + 1]
    ensures multiset(r) + multiset{s[k]} == multiset(s)
  {
    assert s == s[..k] + [s[k]] + s[k + 1..];
    s[..k] + s[k + 1..]
  }

  /** `s.splice(start, 1)` on the list: a negative `start` counts from the end
      (clamped to the front) and a `start` past the last element removes nothing. */
  function SpliceOne<T>(s: seq<T>, start: int): (r: seq<T>)
    ensures 0 <= start < |s| ==> r == RemoveAt(s, start)
    ensures start >= |s| ==> r == s
    ensures -|s| <= start < 0 ==> r == RemoveAt(s, |s| + start)
    ensures start < -|s| && s != [] ==> r == RemoveAt(s, 0)
    ensures s == [] ==> r == []
  {
    var k := if start < 0 then (if |s| + start < 0 then 0 else |s| + start)
             else if start > |s| then |s| else start;
    if k < |s| then RemoveAt(s, k) else s
  }

  /** Deleting the resource just appended gives back the list as it was. */
  lemma DeleteAfterAppend<T>(s: seq<T>, x: T)
    ensures SpliceOne(s + [x], |s|) == s
  {
    var r := SpliceOne(s + [x], |s|);
    assert r == RemoveAt(s + [x], |s|);
    assert |r| == |s|;
    assert forall j :: 0 <= j < |s| ==> r[j] == s[j];
  }

  /** The form fields of the resource dialog. */
  datatype LinkForm = LinkForm(
    topicId: string, title: string, url: string, buttonText: string,
    description: string, screenshot: string)

  /** The record `handleLinkSubmit` builds from the dialog's fields and the
      duration field: no text it stores has white space at either end, its
      title is empty exactly when the typed title is blank, its button text is
      never empty, and it is stamped as added at `addedAt` and not yet edited. */
  function FromForm(form: LinkForm, time: string, addedAt: string): (r: Resource)
    ensures r.title == Trim(form.title) && r.url == Trim(form.url)
    ensures r.buttonText == ButtonText(form.buttonText) && r.description == Trim(form.description)
    ensures r.time == Trim(time) && r.screenshot == Trim(form.screenshot)
    ensures Trimmed(r.title) && Trimmed(r.url) && Trimmed(r.buttonText)
    ensures Trimmed(r.description) && Trimmed(r.time) && Trimmed(r.screenshot)
    ensures r.title == [] <==> AllSpace(form.title)
    ensures r.buttonText != []
    ensures r.addedAt == addedAt && r.editedAt == None
  {
    Resource(Trim(form.title), Trim(form.url), ButtonText(form.buttonText),
             Trim(form.description), Trim(time), Trim(form.screenshot), addedAt, None)
  }

  /** `buttonText.trim() || 'Link'`: never blank, and the typed text whenever
      it is not blank. */
  function ButtonText(raw: string): (r: string)
    ensures r != [] && Trimmed(r)
    ensures !AllSpace(raw) ==> r == Trim(raw)
    ensures AllSpace(raw) ==> r == "Link"
  {
    var t := Trim(raw);
    assert Trimmed("Link") by {
      assert "Link"[0] == 'L' && "Link"[3] == 'k';
    }
    if t == "" then "Link" else t
  }

  /** `resources[i] = submitted` in edit mode: the new record keeps the original's
      `addedAt` when there was an original with one, and carries the edit time
      `editedAt`; no other position changes, and the length changes only when `i` is
      one past the end. */
  function EditedAt(resources: seq<Resource>, i: nat, submitted: Resource, editedAt: string): (r: seq<Resource>)
    requires i <= |resources|
    ensures |r| == if i < |resources| then |resources| else |resources| + 1
    ensures forall j :: 0 <= j < |resources| && j != i ==> r[j] == resources[j]
    ensures r[i].addedAt == if i < |resources| && resources[i].addedAt != "" then resources[i].addedAt else submitted.addedAt
    ensures r[i].editedAt == Some(editedAt)
    ensures r[i].(addedAt := submitted.addedAt, editedAt := submitted.editedAt) == submitted
  {
    var original := if i < |resources| then Some(resources[i]) else None;
    var kept := if original.Some? && original.value.addedAt != "" then original.value.addedAt else submitted.addedAt;
    var edited := submitted.(addedAt := kept, editedAt := Some(editedAt));
    if i < |resources| then resources[i := edited] else resources + [edited]
  }
}
