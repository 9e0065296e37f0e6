/** The thirteen resource routers. Each one resolves the caller from the bearer
token exactly as `get_current_user` does, then runs one of the five record
store handlers on its own module-level dictionary. None of them looks at who
the caller is: the identity only decides between 401 and going on.

The routers differ in nothing but the noun of their detail texts
("Meal not found", "Meal already exists", "Meal deleted"), so they are one
`Resource` datatype and one `Serve` function; a lemma per router states its
behaviour with its own texts.
*/
module Routers {
  import opened Replies
  import opened OrderedDict
  import opened RecordStore
  import opened Identity

  datatype Resource =
    | NotificationSettings
    | Achievements
    | WaterIntakeLogs
    | AboutYourself
    | BasicProfile
    | PhysicalInfo
    | NutritionDatabase
    | ExerciseLogs
    | SleepLogs
    | UserGoals
    | FoodLogs
    | Users
    | Meals

  /** The noun each router puts in front of its detail texts. */
  function Noun(res: Resource): string
  {
    match res
    case NotificationSettings => "Notification setting"
    case Achievements => "Achievement"
    case WaterIntakeLogs => "Water intake log"
    case AboutYourself => "About yourself"
    case BasicProfile => "Profile"
    case PhysicalInfo => "Physical info"
    case NutritionDatabase => "Food"
    case ExerciseLogs => "Exercise log"
    case SleepLogs => "Sleep log"
    case UserGoals => "Goal"
    case FoodLogs => "Food log"
    case Users => "User"
    case Meals => "Meal"
  }

  /** The detail texts of a router. */
  function MessagesOf(res: Resource): Messages
  {
    Messages(Noun(res) + " not found", Noun(res) + " already exists", Noun(res) + " deleted")
  }

  /** The five requests a router serves: GET of the collection, GET, POST,
      PUT and DELETE of one id. */
  datatype Request<P> =
    | ListAll
    | Fetch(id: string)
    | Add(record: Record<P>)
    | Replace(id: string, record: Record<P>)
    | Drop(id: string)

  /** A response body: the list of records, one record, or `{"detail": ...}`. */
  datatype Body<P> = Records(records: seq<Record<P>>) | One(record: Record<P>) | Detail(detail: string)

  /** One router's handler for a request, once the caller is resolved. */
  function Handle<P>(t: Table<P>, req: Request<P>, msgs: Messages): (r: Step<P, Body<P>>)
    ensures r.reply.Fail? ==> r.table == t
    ensures r.reply.Fail? ==> r.reply == Fail(NotFound, msgs.notFound)
                              || r.reply == Fail(BadRequest, msgs.alreadyExists)
    ensures req.ListAll? || req.Fetch? ==> r.table == t
    ensures Keyed(t) ==> Keyed(r.table)
  {
    match req
    case ListAll => Step(t, Ok(Records(List(t))))
    case Fetch(id) =>
      (match RecordStore.Get(t, id, msgs)
       case Ok(rec) => Step(t, Ok(One(rec)))
       case Fail(status, detail) => Step(t, Fail(status, detail)))
    case Add(rec) =>
      var s := Create(t, rec, msgs);
      Step(s.table, if s.reply.Ok? then Ok(One(s.reply.value)) else Fail(s.reply.status, s.reply.detail))
    case Replace(id, rec) =>
      var s := Update(t, id, rec, msgs);
      Step(s.table, if s.reply.Ok? then Ok(One(s.reply.value)) else Fail(s.reply.status, s.reply.detail))
    case Drop(id) =>
      var s := Delete(t, id, msgs);
      Step(s.table, if s.reply.Ok? then Ok(Detail(s.reply.value)) else Fail(s.reply.status, s.reply.detail))
  }

  /** The dictionaries of all routers. A router without an entry has its
      initial, empty dictionary. */
  type Tables<P> = map<Resource, Table<P>>

  function TableOf<P>(tables: Tables<P>, res: Resource): Table<P>
  {
    if res in tables then tables[res] else []
  }

  /** Every dictionary is keyed. */
  predicate Valid<P>(tables: Tables<P>)
  {
    forall res :: res in tables ==> Keyed(tables[res])
  }

  datatype Outcome<P> = Outcome(tables: Tables<P>, reply: Reply<Body<P>>)

  /** A request to router `res` carrying bearer `token`. A token that does not
      resolve to a caller answers 401 before the handler runs. Only the
      router's own dictionary can change, and no error changes anything. */
  function Serve<P>(tables: Tables<P>, res: Resource, decode: Decoder, token: string, req: Request<P>): (r: Outcome<P>)
    ensures !Authenticated(decode, token) ==> r == Outcome(tables, Fail(Unauthorized, InvalidToken))
    ensures r.reply.Fail? ==> r.tables == tables
    ensures req.ListAll? || req.Fetch? ==> r.tables == tables
    ensures forall other :: other != res ==> TableOf(r.tables, other) == TableOf(tables, other)
    ensures Valid(tables) ==> Valid(r.tables)
    ensures Authenticated(decode, token) ==>
      var step := Handle(TableOf(tables, res), req, MessagesOf(res));
      r.reply == step.reply && TableOf(r.tables, res) == step.table
  {
    if !Authenticated(decode, token) then Outcome(tables, Fail(Unauthorized, InvalidToken))
    else
      var step := Handle(TableOf(tables, res), req, MessagesOf(res));
      if req.ListAll? || req.Fetch? || step.reply.Fail? then Outcome(tables, step.reply)
      else Outcome(tables[res := step.table], step.reply)
  }

  /** No router scopes by caller: any two tokens that resolve to a caller,
      whoever it is, get the same answer and leave the same state. */
  lemma CallerIrrelevant<P>(tables: Tables<P>, res: Resource, decode: Decoder, a: string, b: string, req: Request<P>)
    requires Authenticated(decode, a) && Authenticated(decode, b)
    ensures Serve(tables, res, decode, a, req) == Serve(tables, res, decode, b, req)
  {
  }

  /** Without a resolved caller every request answers 401 and changes nothing. */
  ghost predicate DeniesStrangers<P>(tables: Tables<P>, res: Resource, decode: Decoder, token: string,
                                     id: string, rec: Record<P>)
  {
    var denied := Outcome(tables, Fail(Unauthorized, InvalidToken));
    !Authenticated(decode, token) ==>
      && Serve(tables, res, decode, token, ListAll) == denied
      && Serve(tables, res, decode, token, Fetch(id)) == denied
      && Serve(tables, res, decode, token, Add(rec)) == denied
      && Serve(tables, res, decode, token, Replace(id, rec)) == denied
      && Serve(tables, res, decode, token, Drop(id)) == denied
  }

  /** The listing is every stored record, in insertion order. */
  ghost predicate ListsAll<P>(tables: Tables<P>, res: Resource, decode: Decoder, token: string)
  {
    Authenticated(decode, token) ==>
      Serve(tables, res, decode, token, ListAll) == Outcome(tables, Ok(Records(List(TableOf(tables, res)))))
  }

  /** Get answers the stored record, or 404 with `notFound`. */
  ghost predicate FetchesStored<P>(tables: Tables<P>, res: Resource, decode: Decoder, token: string,
                                   id: string, notFound: string)
  {
    var t := TableOf(tables, res);
    var get := Serve(tables, res, decode, token, Fetch(id));
    Authenticated(decode, token) ==>
      && (id !in AsMap(t) ==> get == Outcome(tables, Fail(NotFound, notFound)))
      && (id in AsMap(t) ==> get == Outcome(tables, Ok(One(AsMap(t)[id]))))
  }

  /** Create answers 400 with `alreadyExists` and changes nothing when the id
      is taken; otherwise it adds exactly that record, which get then answers. */
  ghost predicate CreatesNew<P>(tables: Tables<P>, res: Resource, decode: Decoder, token: string,
                                rec: Record<P>, alreadyExists: string)
  {
    var t := TableOf(tables, res);
    var add := Serve(tables, res, decode, token, Add(rec));
    Authenticated(decode, token) ==>
      && (rec.id in AsMap(t) ==> add == Outcome(tables, Fail(BadRequest, alreadyExists)))
      && (rec.id !in AsMap(t) ==>
            && add.reply == Ok(One(rec))
            && AsMap(TableOf(add.tables, res)) == AsMap(t)[rec.id := rec]
            && Serve(add.tables, res, decode, token, Fetch(rec.id)).reply == Ok(One(rec)))
  }

  /** Update answers 404 with `notFound` and changes nothing when the path id
      is absent; otherwise it rebinds that id alone and keeps the key set. */
  ghost predicate ReplacesExisting<P>(tables: Tables<P>, res: Resource, decode: Decoder, token: string,
                                      id: string, rec: Record<P>, notFound: string)
  {
    var t := TableOf(tables, res);
    var put := Serve(tables, res, decode, token, Replace(id, rec));
    Authenticated(decode, token) ==>
      && (id !in AsMap(t) ==> put == Outcome(tables, Fail(NotFound, notFound)))
      && (id in AsMap(t) ==>
            && put.reply == Ok(One(rec))
            && Keys(TableOf(put.tables, res)) == Keys(t)
            && AsMap(TableOf(put.tables, res)) == AsMap(t)[id := rec])
  }

  /** Delete answers 404 with `notFound` and changes nothing when the id is
      absent; otherwise it removes that id alone, answers `deleted`, and a
      second delete answers 404. */
  ghost predicate DeletesExisting<P>(tables: Tables<P>, res: Resource, decode: Decoder, token: string,
                                     id: string, notFound: string, deleted: string)
  {
    var t := TableOf(tables, res);
    var del := Serve(tables, res, decode, token, Drop(id));
    Authenticated(decode, token) ==>
      && (id !in AsMap(t) ==> del == Outcome(tables, Fail(NotFound, notFound)))
      && (id in AsMap(t) ==>
            && del.reply == Ok(Detail(deleted))
            && AsMap(TableOf(del.tables, res)) == AsMap(t) - {id}
            && Serve(del.tables, res, decode, token, Drop(id)) == Outcome(del.tables, Fail(NotFound, notFound)))
  }

  lemma DeniesStrangersHolds<P>(tables: Tables<P>, res: Resource, decode: Decoder, token: string,
                                id: string, rec: Record<P>)
    ensures DeniesStrangers(tables, res, decode, token, id, rec)
  {
  }

  lemma ListsAllHolds<P>(tables: Tables<P>, res: Resource, decode: Decoder, token: string)
    ensures ListsAll(tables, res, decode, token)
  {
  }

  lemma FetchesStoredHolds<P>(tables: Tables<P>, res: Resource, decode: Decoder, token: string, id: string)
    ensures FetchesStored(tables, res, decode, token, id, MessagesOf(res).notFound)
  {
  }

  lemma CreatesNewHolds<P>(tables: Tables<P>, res: Resource, decode: Decoder, token: string, rec: Record<P>)
    requires Valid(tables)
    ensures CreatesNew(tables, res, decode, token, rec, MessagesOf(res).alreadyExists)
  {
    var t := TableOf(tables, res);
    var m := MessagesOf(res);
    if Authenticated(decode, token) && rec.id !in AsMap(t) {
      assert Keyed(t);
      var add := Serve(tables, res, decode, token, Add(rec));
      var s := Create(t, rec, m);
      assert Handle(t, Add(rec), m) == Step(s.table, Ok(One(rec)));
      assert TableOf(add.tables, res) == s.table;
      CreateThenGet(t, rec, m);
      assert Handle(s.table, Fetch(rec.id), m).reply == Ok(One(rec));
    }
  }

  lemma DeletesExistingHolds<P>(tables: Tables<P>, res: Resource, decode: Decoder, token: string, id: string)
    requires Valid(tables)
    ensures DeletesExisting(tables, res, decode, token, id, MessagesOf(res).notFound, MessagesOf(res).deleted)
  {
    var t := TableOf(tables, res);
    if Authenticated(decode, token) && id in AsMap(t) {
      assert Keyed(t);
      DeleteTwice(t, id, MessagesOf(res));
    }
  }

  lemma ReplacesExistingHolds<P>(tables: Tables<P>, res: Resource, decode: Decoder, token: string,
                                 id: string, rec: Record<P>)
    requires Valid(tables)
    ensures ReplacesExisting(tables, res, decode, token, id, rec, MessagesOf(res).notFound)
  {
    assert Keyed(TableOf(tables, res));
  }

  /** What one router does with each request, given its detail texts. */
  ghost predicate Obeys<P>(tables: Tables<P>, res: Resource, decode: Decoder, token: string,
                           id: string, rec: Record<P>,
                           notFound: string, alreadyExists: string, deleted: string)
  {
    && DeniesStrangers(tables, res, decode, token, id, rec)
    && ListsAll(tables, res, decode, token)
    && FetchesStored(tables, res, decode, token, id, notFound)
    && CreatesNew(tables, res, decode, token, rec, alreadyExists)
    && ReplacesExisting(tables, res, decode, token, id, rec, notFound)
    && DeletesExisting(tables, res, decode, token, id, notFound, deleted)
  }

  /** Every router obeys the record store's contract with its own texts. */
  lemma RouterObeys<P>(tables: Tables<P>, res: Resource, decode: Decoder, token: string, id: string, rec: Record<P>)
    requires Valid(tables)
    ensures var m := MessagesOf(res);
      Obeys(tables, res, decode, token, id, rec, m.notFound, m.alreadyExists, m.deleted)
  {
    DeniesStrangersHolds(tables, res, decode, token, id, rec);
    ListsAllHolds(tables, res, decode, token);
    FetchesStoredHolds(tables, res, decode, token, id);
    CreatesNewHolds(tables, res, decode, token, rec);
    ReplacesExistingHolds(tables, res, decode, token, id, rec);
    DeletesExistingHolds(tables, res, decode, token, id);
  }

  /** `notification_settings.py`: the notification setting router. */
  lemma NotificationSettingsRouter<P>(tables: Tables<P>, decode: Decoder, token: string, id: string, rec: Record<P>)
    requires Valid(tables)
    ensures Obeys(tables, NotificationSettings, decode, token, id, rec,
                  "Notification setting not found", "Notification setting already exists", "Notification setting deleted")
  {
    assert MessagesOf(NotificationSettings) == Messages("Notification setting not found", "Notification setting already exists", "Notification setting deleted");
    RouterObeys(tables, NotificationSettings, decode, token, id, rec);
  }

  /** `achievements.py`: the achievement router. */
  lemma AchievementsRouter<P>(tables: Tables<P>, decode: Decoder, token: string, id: string, rec: Record<P>)
    requires Valid(tables)
    ensures Obeys(tables, Achievements, decode, token, id, rec,
                  "Achievement not found", "Achievement already exists", "Achievement deleted")
  {
    assert MessagesOf(Achievements) == Messages("Achievement not found", "Achievement already exists", "Achievement deleted");
    RouterObeys(tables, Achievements, decode, token, id, rec);
  }

  /** `water_intake_logs.py`: the water intake log router. */
  lemma WaterIntakeLogsRouter<P>(tables: Tables<P>, decode: Decoder, token: string, id: string, rec: Record<P>)
    requires Valid(tables)
    ensures Obeys(tables, WaterIntakeLogs, decode, token, id, rec,
                  "Water intake log not found", "Water intake log already exists", "Water intake log deleted")
  {
    assert MessagesOf(WaterIntakeLogs) == Messages("Water intake log not found", "Water intake log already exists", "Water intake log deleted");
    RouterObeys(tables, WaterIntakeLogs, decode, token, id, rec);
  }

  /** `about_yourself.py`: the about-yourself router. */
  lemma AboutYourselfRouter<P>(tables: Tables<P>, decode: Decoder, token: string, id: string, rec: Record<P>)
    requires Valid(tables)
    ensures Obeys(tables, AboutYourself, decode, token, id, rec,
                  "About yourself not found", "About yourself already exists", "About yourself deleted")
  {
    assert MessagesOf(AboutYourself) == Messages("About yourself not found", "About yourself already exists", "About yourself deleted");
    RouterObeys(tables, AboutYourself, decode, token, id, rec);
  }

  /** `basic_profile.py`: the profile router. */
  lemma BasicProfileRouter<P>(tables: Tables<P>, decode: Decoder, token: string, id: string, rec: Record<P>)
    requires Valid(tables)
    ensures Obeys(tables, BasicProfile, decode, token, id, rec,
                  "Profile not found", "Profile already exists", "Profile deleted")
  {
    assert MessagesOf(BasicProfile) == Messages("Profile not found", "Profile already exists", "Profile deleted");
    RouterObeys(tables, BasicProfile, decode, token, id, rec);
  }

  /** `physical_info.py`: the physical info router. */
  lemma PhysicalInfoRouter<P>(tables: Tables<P>, decode: Decoder, token: string, id: string, rec: Record<P>)
    requires Valid(tables)
    ensures Obeys(tables, PhysicalInfo, decode, token, id, rec,
                  "Physical info not found", "Physical info already exists", "Physical info deleted")
  {
    assert MessagesOf(PhysicalInfo) == Messages("Physical info not found", "Physical info already exists", "Physical info deleted");
    RouterObeys(tables, PhysicalInfo, decode, token, id, rec);
  }

  /** `nutrition_database.py`: the food router. */
  lemma NutritionDatabaseRouter<P>(tables: Tables<P>, decode: Decoder, token: string, id: string, rec: Record<P>)
    requires Valid(tables)
    ensures Obeys(tables, NutritionDatabase, decode, token, id, rec,
                  "Food not found", "Food already exists", "Food deleted")
  {
    assert MessagesOf(NutritionDatabase) == Messages("Food not found", "Food already exists", "Food deleted");
    RouterObeys(tables, NutritionDatabase, decode, token, id, rec);
  }

  /** `exercise_logs.py`: the exercise log router. */
  lemma ExerciseLogsRouter<P>(tables: Tables<P>, decode: Decoder, token: string, id: string, rec: Record<P>)
    requires Valid(tables)
    ensures Obeys(tables, ExerciseLogs, decode, token, id, rec,
                  "Exercise log not found", "Exercise log already exists", "Exercise log deleted")
  {
    assert MessagesOf(ExerciseLogs) == Messages("Exercise log not found", "Exercise log already exists", "Exercise log deleted");
    RouterObeys(tables, ExerciseLogs, decode, token, id, rec);
  }

  /** `sleep_logs.py`: the sleep log router. */
  lemma SleepLogsRouter<P>(tables: Tables<P>, decode: Decoder, token: string, id: string, rec: Record<P>)
    requires Valid(tables)
    ensures Obeys(tables, SleepLogs, decode, token, id, rec,
                  "Sleep log not found", "Sleep log already exists", "Sleep log deleted")
  {
    assert MessagesOf(SleepLogs) == Messages("Sleep log not found", "Sleep log already exists", "Sleep log deleted");
    RouterObeys(tables, SleepLogs, decode, token, id, rec);
  }

  /** `user_goals.py`: the goal router. */
  lemma UserGoalsRouter<P>(tables: Tables<P>, decode: Decoder, token: string, id: string, rec: Record<P>)
    requires Valid(tables)
    ensures Obeys(tables, UserGoals, decode, token, id, rec,
                  "Goal not found", "Goal already exists", "Goal deleted")
  {
    assert MessagesOf(UserGoals) == Messages("Goal not found", "Goal already exists", "Goal deleted");
    RouterObeys(tables, UserGoals, decode, token, id, rec);
  }

  /** `food_logs.py`: the food log router. */
  lemma FoodLogsRouter<P>(tables: Tables<P>, decode: Decoder, token: string, id: string, rec: Record<P>)
    requires Valid(tables)
    ensures Obeys(tables, FoodLogs, decode, token, id, rec,
                  "Food log not found", "Food log already exists", "Food log deleted")
  {
    assert MessagesOf(FoodLogs) == Messages("Food log not found", "Food log already exists", "Food log deleted");
    RouterObeys(tables, FoodLogs, decode, token, id, rec);
  }

  /** `users.py`: the user router. */
  lemma UsersRouter<P>(tables: Tables<P>, decode: Decoder, token: string, id: string, rec: Record<P>)
    requires Valid(tables)
    ensures Obeys(tables, Users, decode, token, id, rec,
                  "User not found", "User already exists", "User deleted")
  {
    assert MessagesOf(Users) == Messages("User not found", "User already exists", "User deleted");
    RouterObeys(tables, Users, decode, token, id, rec);
  }

  /** `meals.py`: the meal router. */
  lemma MealsRouter<P>(tables: Tables<P>, decode: Decoder, token: string, id: string, rec: Record<P>)
    requires Valid(tables)
    ensures Obeys(tables, Meals, decode, token, id, rec,
                  "Meal not found", "Meal already exists", "Meal deleted")
  {
    assert MessagesOf(Meals) == Messages("Meal not found", "Meal already exists", "Meal deleted");
    RouterObeys(tables, Meals, decode, token, id, rec);
  }
}
