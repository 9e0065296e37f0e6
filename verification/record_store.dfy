/** The keyed record store that every resource router repeats: a module-level
dictionary from a record's `id` to the record, with the five handlers list, get,
create, update and delete.

The routers differ only in their URL path and the detail texts of their replies,
which are gathered in `Messages`; the handlers here take them as a parameter.
The body of every record other than its `id` is an opaque payload `P`.
Each handler that may change the table returns the new table together with its
reply; a failing handler returns the table it was given.
*/
module RecordStore {
  import opened Replies
  import opened OrderedDict

  /** A stored resource: its `id` and the rest of its fields. */
  datatype Record<P> = Record(id: string, fields: P)

  /** The module-level dictionary of one router. */
  type Table<P> = Dict<Record<P>>

  /** The detail texts of one router: "<Noun> not found", "<Noun> already exists",
      "<Noun> deleted". */
  datatype Messages = Messages(notFound: string, alreadyExists: string, deleted: string)

  /** A handler's new table and its reply. */
  datatype Step<P, T> = Step(table: Table<P>, reply: Reply<T>)

  /** `list(db.values())`: every stored record, in insertion order. */
  function List<P>(t: Table<P>): (rs: seq<Record<P>>)
    ensures |rs| == |t|
    ensures forall i :: 0 <= i < |t| ==> rs[i] == t[i].value
    ensures Keyed(t) ==> forall id :: id in AsMap(t) ==> AsMap(t)[id] in rs
    ensures Keyed(t) ==> forall i :: 0 <= i < |rs| ==> t[i].key in AsMap(t) && AsMap(t)[t[i].key] == rs[i]
  {
    if Keyed(t) then
      EntriesAgree(t);
      var rs := Values(t);
      assert forall id :: id in AsMap(t) ==> AsMap(t)[id] in rs by {
        forall id | id in AsMap(t)
          ensures AsMap(t)[id] in rs
        {
          var i :| 0 <= i < |t| && t[i].key == id;
          assert rs[i] == AsMap(t)[id];
        }
      }
      rs
    else
      Values(t)
  }

  /** `db.get(id)`, answering 404 when the id is absent. A stored record is
      never falsy, so presence of the key is the only condition. */
  function Get<P>(t: Table<P>, id: string, msgs: Messages): (r: Reply<Record<P>>)
    ensures r.Ok? <==> id in AsMap(t)
    ensures r.Ok? ==> r.value == AsMap(t)[id]
    ensures r.Fail? ==> r == Fail(NotFound, msgs.notFound)
  {
    GetAgrees(t, id);
    match OrderedDict.Get(t, id)
    case None => Fail(NotFound, msgs.notFound)
    case Some(rec) => Ok(rec)
  }

  /** Stores `rec` under its own id, answering 400 when that id is taken. */
  function Create<P>(t: Table<P>, rec: Record<P>, msgs: Messages): (r: Step<P, Record<P>>)
    ensures r.reply.Ok? <==> rec.id !in AsMap(t)
    ensures r.reply.Fail? ==> r == Step(t, Fail(BadRequest, msgs.alreadyExists))
    ensures r.reply.Ok? ==> r.reply.value == rec && r.table == t + [Entry(rec.id, rec)]
    ensures Keyed(t) ==> Keyed(r.table)
    ensures Keyed(t) && r.reply.Ok? ==> AsMap(r.table) == AsMap(t)[rec.id := rec]
  {
    if rec.id in Keys(t) then Step(t, Fail(BadRequest, msgs.alreadyExists))
    else
      if Keyed(t) then PutRefines(t, rec.id, rec); Step(Put(t, rec.id, rec), Ok(rec))
      else Step(Put(t, rec.id, rec), Ok(rec))
  }

  /** Rebinds the path id to the request body, answering 404 when the path id
      is absent. The body's own id is not consulted. */
  function Update<P>(t: Table<P>, id: string, rec: Record<P>, msgs: Messages): (r: Step<P, Record<P>>)
    ensures r.reply.Ok? <==> id in AsMap(t)
    ensures r.reply.Fail? ==> r == Step(t, Fail(NotFound, msgs.notFound))
    ensures r.reply.Ok? ==> r.reply.value == rec && Keys(r.table) == Keys(t)
    ensures r.reply.Ok? ==> |r.table| == |t| && forall i :: 0 <= i < |t| ==> r.table[i].key == t[i].key
    ensures Keyed(t) ==> Keyed(r.table)
    ensures Keyed(t) && r.reply.Ok? ==> AsMap(r.table) == AsMap(t)[id := rec]
  {
    if id !in Keys(t) then Step(t, Fail(NotFound, msgs.notFound))
    else
      if Keyed(t) then PutRefines(t, id, rec); Step(Put(t, id, rec), Ok(rec))
      else Step(Put(t, id, rec), Ok(rec))
  }

  /** Removes the entry of `id`, answering 404 when it is absent and
      `{"detail": "<Noun> deleted"}` otherwise. */
  function Delete<P>(t: Table<P>, id: string, msgs: Messages): (r: Step<P, string>)
    ensures r.reply.Ok? <==> id in AsMap(t)
    ensures r.reply.Fail? ==> r == Step(t, Fail(NotFound, msgs.notFound))
    ensures r.reply.Ok? ==> r.reply.value == msgs.deleted && |r.table| == |t| - 1
    ensures Keyed(t) ==> Keyed(r.table)
    ensures Keyed(t) && r.reply.Ok? ==> AsMap(r.table) == AsMap(t) - {id}
  {
    if id !in Keys(t) then Step(t, Fail(NotFound, msgs.notFound))
    else
      if Keyed(t) then RemoveRefines(t, id); Step(Remove(t, id), Ok(msgs.deleted))
      else Step(Remove(t, id), Ok(msgs.deleted))
  }

  /** A record just created is what get answers for its id. */
  lemma CreateThenGet<P>(t: Table<P>, rec: Record<P>, msgs: Messages)
    requires Keyed(t)
    requires rec.id !in AsMap(t)
    ensures Get(Create(t, rec, msgs).table, rec.id, msgs) == Ok(rec)
  {
  }

  /** Deleting a record just created restores the table exactly, order included. */
  lemma CreateThenDelete<P>(t: Table<P>, rec: Record<P>, msgs: Messages)
    requires rec.id !in AsMap(t)
    ensures Delete(Create(t, rec, msgs).table, rec.id, msgs) == Step(t, Ok(msgs.deleted))
  {
    RemoveAppended(t, Entry(rec.id, rec));
  }

  /** Once deleted, an id is absent: a second delete answers 404 and changes nothing. */
  lemma DeleteTwice<P>(t: Table<P>, id: string, msgs: Messages)
    requires Keyed(t)
    requires id in AsMap(t)
    ensures var t' := Delete(t, id, msgs).table;
      Delete(t', id, msgs) == Step(t', Fail(NotFound, msgs.notFound))
  {
  }

  /** Update stores the body under the path id even when the body carries
      another id: get of the path id answers the body, and the body's id
      gains no entry of its own. */
  lemma UpdateUnderPathId<P>(t: Table<P>, id: string, rec: Record<P>, msgs: Messages)
    requires Keyed(t)
    requires id in AsMap(t)
    ensures var t' := Update(t, id, rec, msgs).table;
      && Get(t', id, msgs) == Ok(rec)
      && (rec.id in AsMap(t') <==> rec.id in AsMap(t))
  {
  }

  /** Repeating an update changes nothing more. */
  lemma UpdateIdempotent<P>(t: Table<P>, id: string, rec: Record<P>, msgs: Messages)
    requires Keyed(t)
    ensures var once := Update(t, id, rec, msgs);
      Update(once.table, id, rec, msgs) == once
  {
    var once := Update(t, id, rec, msgs);
    if id in AsMap(t) {
      PutTwice(t, id, rec);
    }
  }

  /** Creating a record appends it at the end of the listing. */
  lemma ListAfterCreate<P>(t: Table<P>, rec: Record<P>, msgs: Messages)
    requires rec.id !in AsMap(t)
    ensures List(Create(t, rec, msgs).table) == List(t) + [rec]
  {
  }
}
