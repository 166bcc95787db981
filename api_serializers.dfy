/** The habit serializer: which fields it reads from a request and which it
    writes to a response, the checks its field declarations imply, and its
    `create` and `update`. */
module ApiSerializers {
  import opened Wrappers
  import opened Json
  import opened ApiModels
  import opened Sequences

  /** The habit serializer's declared fields, in declaration order. */
  datatype Field = Id | User | Name | Description | Tags | TagIds | CreatedAt | Completions

  const HabitFields: set<Field> := {Id, User, Name, Description, Tags, TagIds, CreatedAt, Completions}
  const ReadOnlyFields: set<Field> := {User, Tags, CreatedAt, Completions}
  const WriteOnlyFields: set<Field> := {TagIds}
  const CompletionFields: set<string> := {"id", "habit", "date", "completed"}

  /** The field's JSON key. */
  function Key(f: Field): string {
    match f
    case Id => "id"
    case User => "user"
    case Name => "name"
    case Description => "description"
    case Tags => "tags"
    case TagIds => "tag_ids"
    case CreatedAt => "created_at"
    case Completions => "completions"
  }

  /** The fields a response carries: all declared ones but the write-only. */
  function OutputFields(): (r: set<Field>)
    ensures r == {Id, User, Name, Description, Tags, CreatedAt, Completions}
  {
    HabitFields - WriteOnlyFields
  }

  /** The fields a request may set: all declared ones but the primary key
      and the read-only ones. */
  function InputFields(): (r: set<Field>)
    ensures r == {Name, Description, TagIds}
  {
    HabitFields - ReadOnlyFields - {Id}
  }

  /** Different fields have different keys. */
  lemma KeyInjective(f: Field, g: Field)
    requires Key(f) == Key(g)
    ensures f == g
  {
    assert Key(f)[0] == Key(g)[0] && |Key(f)| == |Key(g)|;
    if f in {Tags, TagIds} {
      assert Key(f)[3] == Key(g)[3];
    }
  }

  function TagJson(t: Tag): Json {
    JObj(map["id" := JInt(t.id), "name" := JStr(t.name)])
  }

  /** The habit's tags (`TagSerializer(many=True)`): one object per tag row
      whose id is in `ids`, in table order. */
  function TagsJson(tags: seq<Tag>, ids: set<int>): (r: seq<Json>)
    ensures |r| == |TagRows(tags, ids)| <= |tags|
    ensures forall i :: 0 <= i < |r| ==> r[i] == TagJson(TagRows(tags, ids)[i])
  {
    if tags == [] then []
    else (if tags[0].id in ids then [TagJson(tags[0])] else []) + TagsJson(tags[1..], ids)
  }

  /** A completion as the API shows it: exactly its four fields. */
  function SerializeCompletion(c: HabitCompletion): (r: map<string, Json>)
    ensures r.Keys == CompletionFields
    ensures r["id"] == JInt(c.id) && r["habit"] == JInt(c.habit)
    ensures r["date"] == JInt(c.date) && r["completed"] == JBool(c.completed)
  {
    map["id" := JInt(c.id), "habit" := JInt(c.habit), "date" := JInt(c.date), "completed" := JBool(c.completed)]
  }

  /** The habit's completions (`HabitCompletionSerializer(many=True)`): one
      object per row of the habit, in table order, each with exactly the
      four completion keys. */
  function CompletionsJson(rows: seq<HabitCompletion>, habit: int): (r: seq<Json>)
    ensures |r| == |RowsOf(rows, habit)| <= |rows|
    ensures forall i :: 0 <= i < |r| ==> r[i] == JObj(SerializeCompletion(RowsOf(rows, habit)[i]))
    ensures forall i :: 0 <= i < |r| ==> r[i].JObj? && r[i].fields.Keys == CompletionFields
  {
    if rows == [] then []
    else (if rows[0].habit == habit then [JObj(SerializeCompletion(rows[0]))] else []) + CompletionsJson(rows[1..], habit)
  }

  /** A habit as the API shows it: the keys of the output fields and no
      other, so neither `tag_ids` nor a single `tag`; `tags` holds the
      habit's tag rows and `completions` all of its rows. */
  function SerializeHabit(h: Habit, tags: seq<Tag>, rows: seq<HabitCompletion>): (r: map<string, Json>)
    ensures r.Keys == set f | f in OutputFields() :: Key(f)
    ensures "tag_ids" !in r && "tag" !in r
    ensures r[Key(Id)] == JInt(h.id) && r[Key(User)] == JInt(h.user)
    ensures r[Key(Name)] == JStr(h.name) && r[Key(Description)] == JStr(h.description)
    ensures r[Key(CreatedAt)] == JInt(h.createdAt)
    ensures r[Key(Tags)] == JArr(TagsJson(tags, h.tags))
    ensures r[Key(Completions)] == JArr(CompletionsJson(rows, h.id))
  {
    HabitObject(h, JArr(TagsJson(tags, h.tags)), JArr(CompletionsJson(rows, h.id)))
  }

  /** The habit object around the two nested lists. */
  function HabitObject(h: Habit, tagsValue: Json, completionsValue: Json): (r: map<string, Json>)
    ensures r.Keys == set f | f in OutputFields() :: Key(f)
    ensures "tag_ids" !in r && "tag" !in r
    ensures r[Key(Id)] == JInt(h.id) && r[Key(User)] == JInt(h.user)
    ensures r[Key(Name)] == JStr(h.name) && r[Key(Description)] == JStr(h.description)
    ensures r[Key(CreatedAt)] == JInt(h.createdAt)
    ensures r[Key(Tags)] == tagsValue && r[Key(Completions)] == completionsValue
  {
    KeysDiffer();
    var r := map[
      Key(Tags) := tagsValue,
      Key(CreatedAt) := JInt(h.createdAt),
      Key(Completions) := completionsValue,
      Key(Id) := JInt(h.id),
      Key(User) := JInt(h.user),
      Key(Name) := JStr(h.name),
      Key(Description) := JStr(h.description)];
    OutputKeys();
    assert r.Keys == {Key(Tags), Key(CreatedAt), Key(Completions), Key(Id), Key(User), Key(Name), Key(Description)};
    r
  }

  /** The keys of the output fields differ. */
  lemma KeysDiffer()
    ensures Key(Id) != Key(User) && Key(Id) != Key(Name) && Key(Id) != Key(Description)
    ensures Key(User) != Key(Name) && Key(User) != Key(Description)
    ensures Key(Name) != Key(Description)
    ensures Key(Tags) != Key(CreatedAt) && Key(Tags) != Key(Completions)
    ensures Key(Tags) !in {Key(Id), Key(User), Key(Name), Key(Description)}
    ensures Key(CreatedAt) != Key(Completions)
    ensures Key(CreatedAt) !in {Key(Id), Key(User), Key(Name), Key(Description)}
    ensures Key(Completions) !in {Key(Id), Key(User), Key(Name), Key(Description)}
  {
    forall f, g | f != g
      ensures Key(f) != Key(g)
    {
      if Key(f) == Key(g) {
        KeyInjective(f, g);
      }
    }
  }

  /** The response keys, written out. */
  lemma OutputKeys()
    ensures (set f | f in OutputFields() :: Key(f))
      == {Key(Tags), Key(CreatedAt), Key(Completions), Key(Id), Key(User), Key(Name), Key(Description)}
    ensures "tag_ids" !in (set f | f in OutputFields() :: Key(f))
    ensures "tag" !in (set f | f in OutputFields() :: Key(f))
  {
  }

  /** A validated value: text for `name` and `description`, tag ids for
      `tag_ids`. */
  datatype Value = Text(s: string) | Ids(ids: seq<int>)

  /** Validated data: fields with their values, in field order. */
  type Validated = seq<(Field, Value)>

  /** Each field carries the kind of value it is declared with. */
  ghost predicate WellTyped(v: Validated) {
    forall i :: 0 <= i < |v| ==>
      (v[i].0 == TagIds && v[i].1.Ids?) || (v[i].0 in {Name, Description} && v[i].1.Text?)
  }

  predicate TagExists(tags: seq<Tag>, id: int) {
    exists k :: 0 <= k < |tags| && tags[k].id == id
  }

  /** A list of primary keys of existing tags. */
  function TagIdList(items: seq<Json>, tags: seq<Tag>): (r: Option<seq<int>>)
    ensures r.Some? ==> |r.value| == |items|
    ensures r.Some? ==> forall i :: 0 <= i < |items| ==> items[i] == JInt(r.value[i]) && TagExists(tags, r.value[i])
    ensures r.None? ==> exists i :: 0 <= i < |items| && !(items[i].JInt? && TagExists(tags, items[i].i))
  {
    if items == [] then Some([])
    else if items[0].JInt? && TagExists(tags, items[0].i) then
      match TagIdList(items[1..], tags)
      case None =>
        var i :| 0 <= i < |items[1..]| && !(items[1..][i].JInt? && TagExists(tags, items[1..][i].i));
        assert items[i + 1] == items[1..][i];
        None
      case Some(rest) => Some([items[0].i] + rest)
    else None
  }

  /** One field's check: a non-blank name of at most 100 characters, a
      possibly blank description, a list of existing tag ids. */
  function ValidateField(f: Field, j: Json, tags: seq<Tag>): (r: Option<Value>)
    requires f in InputFields()
    ensures r.Some? && f == TagIds ==> r.value.Ids? && forall i :: i in r.value.ids ==> TagExists(tags, i)
    ensures r.Some? && f != TagIds ==> r.value.Text? && j == JStr(r.value.s)
    ensures r.Some? && f == Name ==> 0 < |r.value.s| <= HabitNameMaxLength
  {
    if f == TagIds then
      if j.JArr? then
        match TagIdList(j.items, tags)
        case None => None
        case Some(ids) => Some(Ids(ids))
      else None
    else if j.JStr? && (f == Description || 0 < |j.s| <= HabitNameMaxLength) then Some(Text(j.s))
    else None
  }

  /** One writable field of the request: nothing when its key is absent,
      the checked value when it passes, an error naming it otherwise. */
  function Check(f: Field, data: map<string, Json>, tags: seq<Tag>): (r: Result<Validated, Field>)
    requires f in InputFields()
    ensures r.Failure? ==> r.error == f && Key(f) in data
    ensures r.Success? ==> (Key(f) !in data <==> r.value == [])
    ensures r.Success? && r.value != [] ==>
      Key(f) in data && ValidateField(f, data[Key(f)], tags).Some?
      && r.value == [(f, ValidateField(f, data[Key(f)], tags).value)]
  {
    if Key(f) !in data then Success([])
    else match ValidateField(f, data[Key(f)], tags)
      case None => Failure(f)
      case Some(v) => Success([(f, v)])
  }

  /** `f`'s value `val` is what the check of the request's `f` key gave. */
  predicate Checked(f: Field, val: Value, data: map<string, Json>, tags: seq<Tag>) {
    f in InputFields() && Key(f) in data && ValidateField(f, data[Key(f)], tags) == Some(val)
  }

  /** The serializer's validation of a request body: only the keys of
      `name`, `description` and `tag_ids` are read, in that order, and every
      other key (those of the read-only fields included) is ignored; `name`
      is required unless the update is partial. */
  function Validate(data: map<string, Json>, tags: seq<Tag>, partial: bool): (r: Result<Validated, Field>)
    ensures !partial && Key(Name) !in data ==> r == Failure(Name)
    ensures r.Failure? ==> r.error in InputFields() && (Key(r.error) in data || r.error == Name)
    ensures r.Success? ==> WellTyped(r.value)
    ensures r.Success? ==> forall i :: 0 <= i < |r.value| ==> Checked(r.value[i].0, r.value[i].1, data, tags)
    ensures r.Success? ==> forall i, j :: 0 <= i < j < |r.value| ==> r.value[i].0 != r.value[j].0
    ensures r.Success? ==> forall f :: f in InputFields() && Key(f) in data ==> exists i :: 0 <= i < |r.value| && r.value[i].0 == f
  {
    if !partial && Key(Name) !in data then Failure(Name)
    else
      var name := Check(Name, data, tags);
      var description := Check(Description, data, tags);
      var tagIds := Check(TagIds, data, tags);
      if name.Failure? then name
      else if description.Failure? then description
      else if tagIds.Failure? then tagIds
      else
        JoinChecks(name.value, description.value, tagIds.value, data, tags);
        Success(name.value + description.value + tagIds.value)
  }

  /** The three checks' results, one after the other, are each checked,
      name distinct fields and cover every input field present. */
  lemma JoinChecks(n: Validated, d: Validated, t: Validated, data: map<string, Json>, tags: seq<Tag>)
    requires Check(Name, data, tags) == Success(n)
    requires Check(Description, data, tags) == Success(d)
    requires Check(TagIds, data, tags) == Success(t)
    ensures var v := n + d + t;
      && WellTyped(v)
      && (forall i :: 0 <= i < |v| ==> Checked(v[i].0, v[i].1, data, tags))
      && (forall i, j :: 0 <= i < j < |v| ==> v[i].0 != v[j].0)
      && (forall f :: f in InputFields() && Key(f) in data ==> exists i :: 0 <= i < |v| && v[i].0 == f)
  {
    var v := n + d + t;
    forall i | 0 <= i < |v|
      ensures Checked(v[i].0, v[i].1, data, tags)
      ensures v[i].0 == (if i < |n| then Name else if i < |n| + |d| then Description else TagIds)
    {
      if i < |n| {
        assert v[i] == n[0];
      } else if i < |n| + |d| {
        assert v[i] == d[0];
      } else {
        assert v[i] == t[0];
      }
    }
    assert Key(Name) in data ==> v[0].0 == Name;
    assert Key(Description) in data ==> v[|n|].0 == Description;
    assert Key(TagIds) in data ==> v[|v| - 1].0 == TagIds;
  }

  /** Each field appears at most once in validated data, so its last value
      is the one the request's key was checked to. */
  lemma LookupValidated(data: map<string, Json>, tags: seq<Tag>, partial: bool, f: Field)
    requires Validate(data, tags, partial).Success?
    requires f in InputFields() && Key(f) in data
    ensures Lookup(Validate(data, tags, partial).value, f) == ValidateField(f, data[Key(f)], tags)
  {
    var v := Validate(data, tags, partial).value;
    var i :| 0 <= i < |v| && v[i].0 == f;
    LastIsOnly(v, i);
  }

  lemma {:induction false} LastIsOnly(v: Validated, i: int)
    requires 0 <= i < |v|
    requires forall a, b :: 0 <= a < b < |v| ==> v[a].0 != v[b].0
    ensures Lookup(v, v[i].0) == Some(v[i].1)
  {
    if i < |v| - 1 {
      assert v[..|v| - 1][i] == v[i];
      LastIsOnly(v[..|v| - 1], i);
    }
  }

  /** A read-only field in a request body changes nothing: it can never be
      set from input. */
  lemma ReadOnlyInputIgnored(data: map<string, Json>, tags: seq<Tag>, partial: bool, f: Field, v: Json)
    requires f in ReadOnlyFields
    ensures Validate(data[Key(f) := v], tags, partial) == Validate(data, tags, partial)
  {
    forall g | g in InputFields()
      ensures Key(g) != Key(f)
    {
      if Key(g) == Key(f) {
        KeyInjective(g, f);
      }
    }
    var d := data[Key(f) := v];
    assert Check(Name, d, tags) == Check(Name, data, tags);
    assert Check(Description, d, tags) == Check(Description, data, tags);
    assert Check(TagIds, d, tags) == Check(TagIds, data, tags);
  }

  /** The last value given for `key` (the value a dictionary keeps). */
  function Lookup(v: Validated, key: Field): (r: Option<Value>)
    ensures r.Some? ==> exists i :: 0 <= i < |v| && v[i] == (key, r.value)
    ensures r.None? <==> forall i :: 0 <= i < |v| ==> v[i].0 != key
  {
    if v == [] then None
    else if v[|v| - 1].0 == key then Some(v[|v| - 1].1)
    else Lookup(v[..|v| - 1], key)
  }

  /** `validated_data.pop(key)`: the data without `key`. */
  function Drop(v: Validated, key: Field): (r: Validated)
    ensures forall i :: 0 <= i < |r| ==> r[i].0 != key && r[i] in v
    ensures forall k :: k != key ==> Lookup(r, k) == Lookup(v, k)
  {
    if v == [] then []
    else if v[|v| - 1].0 == key then Drop(v[..|v| - 1], key)
    else
      var r := Drop(v[..|v| - 1], key) + [v[|v| - 1]];
      assert r[..|r| - 1] == Drop(v[..|v| - 1], key);
      r
  }

  function TextOr(v: Option<Value>, default: string): string {
    if v.Some? && v.value.Text? then v.value.s else default
  }

  function SetOf(ids: seq<int>): (r: set<int>)
    ensures forall i :: i in r <==> i in ids
  {
    set i | i in ids
  }

  /** The tags a `tag_ids` entry sets, or `otherwise` when there is none. */
  function TagsOr(v: Option<Value>, otherwise: set<int>): set<int> {
    if v.Some? && v.value.Ids? then SetOf(v.value.ids) else otherwise
  }

  /** `setattr(instance, attr, value)` for a writable attribute. */
  function SetAttr(h: Habit, attr: Field, value: Value): (r: Habit)
    requires attr in {Name, Description} && value.Text?
    ensures attr == Name ==> r == h.(name := value.s)
    ensures attr == Description ==> r == h.(description := value.s)
  {
    if attr == Name then h.(name := value.s) else h.(description := value.s)
  }

  /** `create`: a new habit of `user` from the validated data; tags are the
      given `tag_ids` or none, a missing text field is blank. */
  function Create(validated: Validated, user: int, id: int, createdAt: int): (h: Habit)
    requires WellTyped(validated)
    ensures h.id == id && h.user == user && h.createdAt == createdAt
    ensures h.name == TextOr(Lookup(validated, Name), "")
    ensures h.description == TextOr(Lookup(validated, Description), "")
    ensures Lookup(validated, TagIds).None? ==> h.tags == {}
    ensures Lookup(validated, TagIds).Some? ==> forall t :: t in h.tags <==> t in Lookup(validated, TagIds).value.ids
  {
    var tagIds := Lookup(validated, TagIds);
    var rest := Drop(validated, TagIds);
    Habit(id, user, TextOr(Lookup(rest, Name), ""), TextOr(Lookup(rest, Description), ""), TagsOr(tagIds, {}), createdAt)
  }

  /** A habit created from a request that passed validation, with an unused
      id, keeps the habits table valid: its name fits and its tags exist. */
  lemma CreatedHabitIsValid(data: map<string, Json>, tags: seq<Tag>, habits: seq<Habit>, user: int, id: int, createdAt: int)
    requires ValidHabits(habits, tags)
    requires forall i :: 0 <= i < |habits| ==> habits[i].id != id
    requires Validate(data, tags, false).Success?
    ensures ValidHabits(habits + [Create(Validate(data, tags, false).value, user, id, createdAt)], tags)
  {
    var v := Validate(data, tags, false).value;
    var h := Create(v, user, id, createdAt);
    CreatedHabitFits(v, data, tags, user, id, createdAt);
    AppendHabitValid(habits, tags, h);
  }

  /** A habit created from validated data has a name that fits and only
      existing tags. */
  lemma CreatedHabitFits(v: Validated, data: map<string, Json>, tags: seq<Tag>, user: int, id: int, createdAt: int)
    requires WellTyped(v)
    requires forall i :: 0 <= i < |v| ==> Checked(v[i].0, v[i].1, data, tags)
    ensures |Create(v, user, id, createdAt).name| <= HabitNameMaxLength
    ensures forall t :: t in Create(v, user, id, createdAt).tags ==> exists k :: 0 <= k < |tags| && tags[k].id == t
  {
    if Lookup(v, Name).Some? {
      var i :| 0 <= i < |v| && v[i] == (Name, Lookup(v, Name).value);
      assert Checked(v[i].0, v[i].1, data, tags);
    }
    if Lookup(v, TagIds).Some? {
      var i :| 0 <= i < |v| && v[i] == (TagIds, Lookup(v, TagIds).value);
      assert Checked(v[i].0, v[i].1, data, tags);
      forall t | t in Create(v, user, id, createdAt).tags
        ensures exists k :: 0 <= k < |tags| && tags[k].id == t
      {
        assert TagExists(tags, t);
      }
    }
  }

  /** `update`: sets each validated attribute other than `tag_ids` in turn,
      then replaces the tags only when `tag_ids` was given. The saved habit
      is returned. */
  method Update(instance: Habit, validated: Validated) returns (saved: Habit)
    requires WellTyped(validated)
    ensures saved.id == instance.id && saved.user == instance.user && saved.createdAt == instance.createdAt
    ensures saved.name == TextOr(Lookup(validated, Name), instance.name)
    ensures saved.description == TextOr(Lookup(validated, Description), instance.description)
    ensures Lookup(validated, TagIds).None? ==> saved.tags == instance.tags
    ensures Lookup(validated, TagIds).Some? ==> forall t :: t in saved.tags <==> t in Lookup(validated, TagIds).value.ids
  {
    var tagIds := Lookup(validated, TagIds);
    var rest := Drop(validated, TagIds);
    saved := instance;
    for i := 0 to |rest|
      invariant saved.id == instance.id && saved.user == instance.user && saved.createdAt == instance.createdAt
      invariant saved.tags == instance.tags
      invariant saved.name == TextOr(Lookup(rest[..i], Name), instance.name)
      invariant saved.description == TextOr(Lookup(rest[..i], Description), instance.description)
    {
      assert rest[i] in validated;
      assert rest[..i + 1][..i] == rest[..i];
      saved := SetAttr(saved, rest[i].0, rest[i].1);
    }
    assert rest[..|rest|] == rest;
    if tagIds.Some? {
      var j :| 0 <= j < |validated| && validated[j] == (TagIds, tagIds.value);
      saved := saved.(tags := SetOf(tagIds.value.ids));
    }
  }
}
