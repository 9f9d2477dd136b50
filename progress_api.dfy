/**
 * The server functions over the database tables: step and lesson progress,
 * course visits, per-user AI settings with their wrapped keys, and step
 * chats. Each table is a map from row id to row; an insert with
 * `onConflictDoUpdate` is an upsert that writes only the listed columns of
 * an existing row.
 */
module ProgressApi {
  import opened Wrappers
  import opened Text
  import opened Encoding
  import opened Auth
  import ChatStorage

  /** Step-progress and step-chat rows: `userId:courseId:itemId:stepId`. */
  function StepRowId(userId: string, courseId: string, itemId: string, stepId: string): (id: string)
    ensures id == Join([userId, courseId, itemId, stepId], ":")
  {
    assert [userId, courseId, itemId, stepId][1..] == [courseId, itemId, stepId];
    assert [courseId, itemId, stepId][1..] == [itemId, stepId];
    assert Join([itemId, stepId], ":") == itemId + ":" + stepId;
    userId + ":" + courseId + ":" + itemId + ":" + stepId
  }

  /** Lesson-progress rows: `userId:courseId:itemId`. */
  function LessonRowId(userId: string, courseId: string, itemId: string): (id: string)
    ensures id == Join([userId, courseId, itemId], ":")
  {
    assert [userId, courseId, itemId][1..] == [courseId, itemId];
    assert Join([courseId, itemId], ":") == courseId + ":" + itemId;
    userId + ":" + courseId + ":" + itemId
  }

  /** Course-visit rows: `userId:courseId`. */
  function VisitRowId(userId: string, courseId: string): (id: string)
    ensures id == Join([userId, courseId], ":")
  {
    userId + ":" + courseId
  }

  /** Ids free of ':' are recovered from a step row id, so distinct steps get distinct rows. */
  lemma StepRowIdParts(userId: string, courseId: string, itemId: string, stepId: string)
    requires !Contains(userId, ":") && !Contains(courseId, ":") && !Contains(itemId, ":") && !Contains(stepId, ":")
    ensures Split(StepRowId(userId, courseId, itemId, stepId), ":") == [userId, courseId, itemId, stepId]
  {
    SplitJoin([userId, courseId, itemId, stepId], ":");
  }

  /** Ids free of ':' are recovered from a lesson row id. */
  lemma LessonRowIdParts(userId: string, courseId: string, itemId: string)
    requires !Contains(userId, ":") && !Contains(courseId, ":") && !Contains(itemId, ":")
    ensures Split(LessonRowId(userId, courseId, itemId), ":") == [userId, courseId, itemId]
  {
    SplitJoin([userId, courseId, itemId], ":");
  }

  /** Ids free of ':' are recovered from a visit row id. */
  lemma VisitRowIdParts(userId: string, courseId: string)
    requires !Contains(userId, ":") && !Contains(courseId, ":")
    ensures Split(VisitRowId(userId, courseId), ":") == [userId, courseId]
  {
    SplitJoin([userId, courseId], ":");
  }

  datatype StepRow = StepRow(id: string, userId: string, courseId: string, itemId: string, stepId: string,
                             completed: bool, completedAt: Option<int>, updatedAt: int)

  datatype LessonRow = LessonRow(id: string, userId: string, courseId: string, itemId: string,
                                 completed: bool, manuallySet: bool, completedAt: Option<int>, updatedAt: int)

  datatype VisitRow = VisitRow(id: string, userId: string, courseId: string, lastItemId: string,
                               lastStepId: string, lastVisitedAt: int, updatedAt: int)

  datatype ChatRow = ChatRow(id: string, userId: string, courseId: string, itemId: string, stepId: string,
                             messages: seq<ChatStorage.ChatMessage>, updatedAt: int)

  /** A user's AI settings; the row id is the user id. */
  datatype SettingsRow = SettingsRow(id: string, userId: string, aiProvider: Option<string>, aiModel: Option<string>,
                                     encryptedApiKey: Option<string>, keyEncryptionKey: Option<string>, updatedAt: int)

  /** `completedAt` is set exactly when the row is completed. */
  predicate StampConsistent(completed: bool, completedAt: Option<int>) {
    completedAt.Some? <==> completed
  }

  // ---- Step progress ----

  /** `getStepProgress`: the row under the step's id, or null. */
  function StepProgressOf(rows: map<string, StepRow>, userId: string, courseId: string, itemId: string, stepId: string): (r: Option<StepRow>)
    ensures r.Some? <==> StepRowId(userId, courseId, itemId, stepId) in rows
    ensures r.Some? ==> r.value == rows[StepRowId(userId, courseId, itemId, stepId)]
  {
    var id := StepRowId(userId, courseId, itemId, stepId);
    if id in rows then Some(rows[id]) else None
  }

  /** `updateStepProgress`: inserts the row, or on an existing id rewrites completion and timestamps only. */
  function UpsertStep(rows: map<string, StepRow>, userId: string, courseId: string, itemId: string, stepId: string,
                      completed: bool, now: int): (r: map<string, StepRow>)
    ensures var id := StepRowId(userId, courseId, itemId, stepId);
      && r.Keys == rows.Keys + {id}
      && r[id].completed == completed
      && StampConsistent(r[id].completed, r[id].completedAt)
      && (completed ==> r[id].completedAt == Some(now))
      && r[id].updatedAt == now
      && (id in rows ==> r[id].id == rows[id].id && r[id].userId == rows[id].userId && r[id].courseId == rows[id].courseId
                         && r[id].itemId == rows[id].itemId && r[id].stepId == rows[id].stepId)
      && (id !in rows ==> r[id].id == id && r[id].userId == userId && r[id].courseId == courseId
                          && r[id].itemId == itemId && r[id].stepId == stepId)
      && forall k :: k in rows && k != id ==> r[k] == rows[k]
  {
    var id := StepRowId(userId, courseId, itemId, stepId);
    var stamp := if completed then Some(now) else None;
    if id in rows then rows[id := rows[id].(completed := completed, completedAt := stamp, updatedAt := now)]
    else rows[id := StepRow(id, userId, courseId, itemId, stepId, completed, stamp, now)]
  }

  /** Every step row's `completedAt` agrees with its `completed`. */
  predicate StepStampsConsistent(rows: map<string, StepRow>) {
    forall k :: k in rows ==> StampConsistent(rows[k].completed, rows[k].completedAt)
  }

  /** Upserts keep every step row's completion stamp consistent. */
  lemma UpsertStepKeepsStamps(rows: map<string, StepRow>, userId: string, courseId: string, itemId: string, stepId: string,
                              completed: bool, now: int)
    requires StepStampsConsistent(rows)
    ensures StepStampsConsistent(UpsertStep(rows, userId, courseId, itemId, stepId, completed, now))
  {
    var r := UpsertStep(rows, userId, courseId, itemId, stepId, completed, now);
    var id := StepRowId(userId, courseId, itemId, stepId);
    forall k | k in r ensures StampConsistent(r[k].completed, r[k].completedAt) {
      if k != id {
        assert r[k] == rows[k];
      }
    }
  }

  /** `deleteStepProgress`: removes the row with the step's id and nothing else. */
  function DeleteStep(rows: map<string, StepRow>, userId: string, courseId: string, itemId: string, stepId: string): (r: map<string, StepRow>)
    ensures r.Keys == rows.Keys - {StepRowId(userId, courseId, itemId, stepId)}
    ensures forall k :: k in r ==> r[k] == rows[k]
  {
    rows - {StepRowId(userId, courseId, itemId, stepId)}
  }

  /** Deleting a step row that an upsert created restores the table. */
  lemma UpsertThenDeleteStep(rows: map<string, StepRow>, userId: string, courseId: string, itemId: string, stepId: string,
                             completed: bool, now: int)
    requires StepRowId(userId, courseId, itemId, stepId) !in rows
    ensures DeleteStep(UpsertStep(rows, userId, courseId, itemId, stepId, completed, now), userId, courseId, itemId, stepId) == rows
  {
    var r := DeleteStep(UpsertStep(rows, userId, courseId, itemId, stepId, completed, now), userId, courseId, itemId, stepId);
    assert r.Keys == rows.Keys;
  }

  /** `getCourseStepProgress`: every step row whose user and course columns match. */
  function CourseStepRows(rows: map<string, StepRow>, userId: string, courseId: string): (r: map<string, StepRow>)
    ensures forall k :: k in r <==> k in rows && rows[k].userId == userId && rows[k].courseId == courseId
    ensures forall k :: k in r ==> r[k] == rows[k]
  {
    map k | k in rows && rows[k].userId == userId && rows[k].courseId == courseId :: rows[k]
  }

  /**
   * After an upsert the row is listed for the user and course, unless an
   * existing row of another user or course already had that id (the conflict
   * update keeps the old columns).
   */
  lemma UpsertedStepListed(rows: map<string, StepRow>, userId: string, courseId: string, itemId: string, stepId: string,
                           completed: bool, now: int)
    requires var id := StepRowId(userId, courseId, itemId, stepId);
      id !in rows || (rows[id].userId == userId && rows[id].courseId == courseId)
    ensures StepRowId(userId, courseId, itemId, stepId) in CourseStepRows(UpsertStep(rows, userId, courseId, itemId, stepId, completed, now), userId, courseId)
  {
  }

  /** Reading a step after an upsert gives the row with the written completion; after a delete, none. */
  lemma StepReadsBack(rows: map<string, StepRow>, userId: string, courseId: string, itemId: string, stepId: string,
                      completed: bool, now: int)
    ensures var p := StepProgressOf(UpsertStep(rows, userId, courseId, itemId, stepId, completed, now), userId, courseId, itemId, stepId);
      && p.Some? && p.value.completed == completed && p.value.updatedAt == now
      && p.value.completedAt == (if completed then Some(now) else None)
    ensures StepProgressOf(DeleteStep(rows, userId, courseId, itemId, stepId), userId, courseId, itemId, stepId).None?
  {
  }

  /** Two different users' step ids can name the same row when an id holds ':'. */
  lemma StepRowIdsCollide()
    ensures StepRowId("u:c", "i", "s", "t") == StepRowId("u", "c:i", "s", "t")
  {
    assert StepRowId("u:c", "i", "s", "t") == "u:c:i:s:t";
    assert StepRowId("u", "c:i", "s", "t") == "u:c:i:s:t";
  }

  // ---- Lesson progress ----

  /** `getLessonProgress`: the row under the lesson's id, or null. */
  function LessonProgressOf(rows: map<string, LessonRow>, userId: string, courseId: string, itemId: string): (r: Option<LessonRow>)
    ensures r.Some? <==> LessonRowId(userId, courseId, itemId) in rows
    ensures r.Some? ==> r.value == rows[LessonRowId(userId, courseId, itemId)]
  {
    var id := LessonRowId(userId, courseId, itemId);
    if id in rows then Some(rows[id]) else None
  }

  /** `updateLessonProgress`: as for steps, and `manuallySet` is the given flag or false, on insert and on update alike. */
  function UpsertLesson(rows: map<string, LessonRow>, userId: string, courseId: string, itemId: string,
                        completed: bool, manuallySet: Option<bool>, now: int): (r: map<string, LessonRow>)
    ensures var id := LessonRowId(userId, courseId, itemId);
      && r.Keys == rows.Keys + {id}
      && r[id].completed == completed
      && r[id].manuallySet == (manuallySet == Some(true))
      && StampConsistent(r[id].completed, r[id].completedAt)
      && (completed ==> r[id].completedAt == Some(now))
      && r[id].updatedAt == now
      && (id in rows ==> r[id].id == rows[id].id && r[id].userId == rows[id].userId
                         && r[id].courseId == rows[id].courseId && r[id].itemId == rows[id].itemId)
      && (id !in rows ==> r[id].id == id && r[id].userId == userId && r[id].courseId == courseId && r[id].itemId == itemId)
      && forall k :: k in rows && k != id ==> r[k] == rows[k]
  {
    var id := LessonRowId(userId, courseId, itemId);
    var stamp := if completed then Some(now) else None;
    var manual := manuallySet.GetOr(false);
    if id in rows then rows[id := rows[id].(completed := completed, manuallySet := manual, completedAt := stamp, updatedAt := now)]
    else rows[id := LessonRow(id, userId, courseId, itemId, completed, manual, stamp, now)]
  }

  /** Leaving `manuallySet` out clears a manual mark already stored. */
  lemma OmittedManualFlagClears(rows: map<string, LessonRow>, userId: string, courseId: string, itemId: string,
                                completed: bool, now: int)
    requires LessonProgressOf(rows, userId, courseId, itemId).Some?
    requires LessonProgressOf(rows, userId, courseId, itemId).value.manuallySet
    ensures !LessonProgressOf(UpsertLesson(rows, userId, courseId, itemId, completed, None, now), userId, courseId, itemId).value.manuallySet
  {
  }

  /** `deleteLessonProgress`: removes the row with the lesson's id and nothing else. */
  function DeleteLesson(rows: map<string, LessonRow>, userId: string, courseId: string, itemId: string): (r: map<string, LessonRow>)
    ensures r.Keys == rows.Keys - {LessonRowId(userId, courseId, itemId)}
    ensures forall k :: k in r ==> r[k] == rows[k]
  {
    rows - {LessonRowId(userId, courseId, itemId)}
  }

  /** `getCourseLessonProgress`: every lesson row whose user and course columns match. */
  function CourseLessonRows(rows: map<string, LessonRow>, userId: string, courseId: string): (r: map<string, LessonRow>)
    ensures forall k :: k in r <==> k in rows && rows[k].userId == userId && rows[k].courseId == courseId
    ensures forall k :: k in r ==> r[k] == rows[k]
  {
    map k | k in rows && rows[k].userId == userId && rows[k].courseId == courseId :: rows[k]
  }

  /**
   * After an upsert the lesson is listed for the user and course, unless an
   * existing row of another user or course already had that id.
   */
  lemma UpsertedLessonListed(rows: map<string, LessonRow>, userId: string, courseId: string, itemId: string,
                             completed: bool, manuallySet: Option<bool>, now: int)
    requires var id := LessonRowId(userId, courseId, itemId);
      id !in rows || (rows[id].userId == userId && rows[id].courseId == courseId)
    ensures var id := LessonRowId(userId, courseId, itemId);
      var listed := CourseLessonRows(UpsertLesson(rows, userId, courseId, itemId, completed, manuallySet, now), userId, courseId);
      id in listed && listed[id].completed == completed
  {
  }

  // ---- Course visits ----

  /** `getCourseVisit`: the row under the visit id, or null. */
  function CourseVisitOf(rows: map<string, VisitRow>, userId: string, courseId: string): (r: Option<VisitRow>)
    ensures r.Some? <==> VisitRowId(userId, courseId) in rows
    ensures r.Some? ==> r.value == rows[VisitRowId(userId, courseId)]
  {
    var id := VisitRowId(userId, courseId);
    if id in rows then Some(rows[id]) else None
  }

  /** `updateCourseVisit`: records the last item and step and the visit time. */
  function UpsertVisit(rows: map<string, VisitRow>, userId: string, courseId: string, lastItemId: string, lastStepId: string,
                       now: int): (r: map<string, VisitRow>)
    ensures var id := VisitRowId(userId, courseId);
      && r.Keys == rows.Keys + {id}
      && r[id].lastItemId == lastItemId && r[id].lastStepId == lastStepId
      && r[id].lastVisitedAt == now && r[id].updatedAt == now
      && (id !in rows ==> r[id].id == id && r[id].userId == userId && r[id].courseId == courseId)
      && (id in rows ==> r[id].id == rows[id].id && r[id].userId == rows[id].userId && r[id].courseId == rows[id].courseId)
      && forall k :: k in rows && k != id ==> r[k] == rows[k]
  {
    var id := VisitRowId(userId, courseId);
    if id in rows then rows[id := rows[id].(lastItemId := lastItemId, lastStepId := lastStepId, lastVisitedAt := now, updatedAt := now)]
    else rows[id := VisitRow(id, userId, courseId, lastItemId, lastStepId, now, now)]
  }

  /** The visit read back after an update names the step just recorded. */
  lemma VisitReadsBack(rows: map<string, VisitRow>, userId: string, courseId: string, lastItemId: string, lastStepId: string, now: int)
    ensures var v := CourseVisitOf(UpsertVisit(rows, userId, courseId, lastItemId, lastStepId, now), userId, courseId);
      v.Some? && v.value.lastItemId == lastItemId && v.value.lastStepId == lastStepId
  {
  }

  // ---- Step chats ----

  /** `getStepChats`: the stored messages, or none. */
  function StepChatsOf(rows: map<string, ChatRow>, userId: string, courseId: string, itemId: string, stepId: string): (msgs: seq<ChatStorage.ChatMessage>)
    ensures StepRowId(userId, courseId, itemId, stepId) !in rows ==> msgs == []
    ensures StepRowId(userId, courseId, itemId, stepId) in rows ==> msgs == rows[StepRowId(userId, courseId, itemId, stepId)].messages
  {
    var id := StepRowId(userId, courseId, itemId, stepId);
    if id in rows then rows[id].messages else []
  }

  /** `saveStepChats`: stores the messages under the step's id. */
  function UpsertChat(rows: map<string, ChatRow>, userId: string, courseId: string, itemId: string, stepId: string,
                      messages: seq<ChatStorage.ChatMessage>, now: int): (r: map<string, ChatRow>)
    ensures var id := StepRowId(userId, courseId, itemId, stepId);
      && r.Keys == rows.Keys + {id}
      && r[id].messages == messages && r[id].updatedAt == now
      && (id in rows ==> r[id].id == rows[id].id && r[id].userId == rows[id].userId && r[id].courseId == rows[id].courseId
                         && r[id].itemId == rows[id].itemId && r[id].stepId == rows[id].stepId)
      && (id !in rows ==> r[id].id == id && r[id].userId == userId && r[id].courseId == courseId
                          && r[id].itemId == itemId && r[id].stepId == stepId)
      && forall k :: k in rows && k != id ==> r[k] == rows[k]
  {
    var id := StepRowId(userId, courseId, itemId, stepId);
    if id in rows then rows[id := rows[id].(messages := messages, updatedAt := now)]
    else rows[id := ChatRow(id, userId, courseId, itemId, stepId, messages, now)]
  }

  /** `deleteStepChats`: removes the row with the step's id and nothing else. */
  function DeleteChat(rows: map<string, ChatRow>, userId: string, courseId: string, itemId: string, stepId: string): (r: map<string, ChatRow>)
    ensures r.Keys == rows.Keys - {StepRowId(userId, courseId, itemId, stepId)}
    ensures forall k :: k in r ==> r[k] == rows[k]
  {
    rows - {StepRowId(userId, courseId, itemId, stepId)}
  }

  /** Saved messages are read back as saved; after a delete none are. */
  lemma ChatSaveDeleteRead(rows: map<string, ChatRow>, userId: string, courseId: string, itemId: string, stepId: string,
                           messages: seq<ChatStorage.ChatMessage>, now: int)
    ensures StepChatsOf(UpsertChat(rows, userId, courseId, itemId, stepId, messages, now), userId, courseId, itemId, stepId) == messages
    ensures StepChatsOf(DeleteChat(rows, userId, courseId, itemId, stepId), userId, courseId, itemId, stepId) == []
  {
  }

  // ---- User settings ----

  /** JavaScript truthiness of a nullable text: present and non-empty. */
  predicate Truthy(s: Option<string>) {
    s.Some? && s.value != ""
  }

  /** `s || null`: an empty or missing text becomes null. */
  function OrNull(s: Option<string>): (r: Option<string>)
    ensures r.Some? <==> Truthy(s)
    ensures r.Some? ==> r == s
  {
    if Truthy(s) then s else None
  }

  /** The random bytes one settings write may draw: a user key and two IVs. */
  datatype Fresh = Fresh(userKey: seq<byte>, userKeyIv: seq<byte>, apiKeyIv: seq<byte>)

  /** `randomBytes(32)` and `randomBytes(16)` give bytes of those lengths. */
  predicate FreshSized(draw: Fresh) {
    |draw.userKey| == KeyLength && |draw.userKeyIv| == IvLength && |draw.apiKeyIv| == IvLength
  }

  /** What `getUserSettings` adds to the row: the decrypted API key, or null. */
  datatype SettingsView = SettingsView(row: SettingsRow, apiKey: Option<string>)

  /**
   * The decrypt guard of `getUserSettings`: only when both the encrypted API
   * key and the wrapped user key are non-empty is the user key unwrapped and
   * the API key decrypted (either step may throw).
   */
  function StoredApiKey(c: Crypto, secret: Option<string>, row: SettingsRow): (r: Result<Option<string>, AuthError>)
    ensures !(Truthy(row.encryptedApiKey) && Truthy(row.keyEncryptionKey)) ==> r == Ok(None)
    ensures r.Ok? && r.value.Some? ==>
      && DecryptUserKey(c, secret, row.keyEncryptionKey.value).Ok?
      && DecryptApiKey(c, row.encryptedApiKey.value, DecryptUserKey(c, secret, row.keyEncryptionKey.value).value) == Ok(r.value.value)
    ensures Truthy(row.encryptedApiKey) && Truthy(row.keyEncryptionKey) ==>
      var userKey := DecryptUserKey(c, secret, row.keyEncryptionKey.value);
      && (userKey.Err? ==> r == Err(userKey.error))
      && (userKey.Ok? ==> var apiKey := DecryptApiKey(c, row.encryptedApiKey.value, userKey.value);
            && (apiKey.Err? ==> r == Err(apiKey.error))
            && (apiKey.Ok? ==> r == Ok(Some(apiKey.value))))
  {
    if Truthy(row.encryptedApiKey) && Truthy(row.keyEncryptionKey) then
      var userKey :- DecryptUserKey(c, secret, row.keyEncryptionKey.value);
      var apiKey :- DecryptApiKey(c, row.encryptedApiKey.value, userKey);
      Ok(Some(apiKey))
    else Ok(None)
  }

  /** `getUserSettings`: null without a row, else the row with its decrypted API key. */
  function UserSettingsOf(c: Crypto, secret: Option<string>, rows: map<string, SettingsRow>, userId: string): (r: Result<Option<SettingsView>, AuthError>)
    ensures userId !in rows ==> r == Ok(None)
    ensures r.Ok? && r.value.Some? ==>
      && userId in rows && r.value.value.row == rows[userId]
      && StoredApiKey(c, secret, rows[userId]) == Ok(r.value.value.apiKey)
    ensures userId in rows && StoredApiKey(c, secret, rows[userId]).Ok? ==>
      r == Ok(Some(SettingsView(rows[userId], StoredApiKey(c, secret, rows[userId]).value)))
    ensures userId in rows && StoredApiKey(c, secret, rows[userId]).Err? ==>
      r == Err(StoredApiKey(c, secret, rows[userId]).error)
  {
    if userId !in rows then Ok(None)
    else
      var apiKey :- StoredApiKey(c, secret, rows[userId]);
      Ok(Some(SettingsView(rows[userId], apiKey)))
  }

  /** The user key and its wrapped form: the stored one when present, else a freshly generated one. */
  function UserKeyFor(c: Crypto, secret: Option<string>, existing: Option<SettingsRow>, draw: Fresh): (r: Result<(string, string), AuthError>)
    requires FreshSized(draw)
    ensures existing.Some? && Truthy(existing.value.keyEncryptionKey) ==>
      && (r.Ok? <==> DecryptUserKey(c, secret, existing.value.keyEncryptionKey.value).Ok?)
      && (r.Ok? ==> r.value == (DecryptUserKey(c, secret, existing.value.keyEncryptionKey.value).value, existing.value.keyEncryptionKey.value))
    ensures !(existing.Some? && Truthy(existing.value.keyEncryptionKey)) ==>
      && (r.Ok? <==> EncryptUserKey(c, secret, draw.userKeyIv, GenerateUserEncryptionKey(draw.userKey)).Ok?)
      && (r.Ok? ==> r.value.0 == GenerateUserEncryptionKey(draw.userKey)
                    && r.value.1 == EncryptUserKey(c, secret, draw.userKeyIv, r.value.0).value)
  {
    if existing.Some? && Truthy(existing.value.keyEncryptionKey) then
      var userKey :- DecryptUserKey(c, secret, existing.value.keyEncryptionKey.value);
      Ok((userKey, existing.value.keyEncryptionKey.value))
    else
      var userKey := GenerateUserEncryptionKey(draw.userKey);
      var wrapped :- EncryptUserKey(c, secret, draw.userKeyIv, userKey);
      Ok((userKey, wrapped))
  }

  /** The encrypted API key to store: the new key encrypted, or else the stored one (empty becomes null). */
  function NewEncryptedApiKey(c: Crypto, existing: Option<SettingsRow>, apiKey: Option<string>, userKey: string, iv: seq<byte>)
    : (r: Result<Option<string>, AuthError>)
    ensures !Truthy(apiKey) ==> r == Ok(OrNull(if existing.Some? then existing.value.encryptedApiKey else None))
    ensures Truthy(apiKey) ==>
      match EncryptApiKey(c, apiKey.value, userKey, iv)
      case Ok(e) => r == Ok(Some(e))
      case Err(x) => r == Err(x)
  {
    if Truthy(apiKey) then
      var e :- EncryptApiKey(c, apiKey.value, userKey, iv);
      Ok(Some(e))
    else Ok(OrNull(if existing.Some? then existing.value.encryptedApiKey else None))
  }

  /** `updateUserSettings`: the row written for the user, or the error thrown before anything is written. */
  function UpdatedSettings(c: Crypto, secret: Option<string>, existing: Option<SettingsRow>, userId: string,
                           aiProvider: Option<string>, aiModel: Option<string>, apiKey: Option<string>,
                           draw: Fresh, now: int): (r: Result<SettingsRow, AuthError>)
    requires FreshSized(draw)
    ensures r.Ok? ==> r.value.aiProvider == OrNull(aiProvider) && r.value.aiModel == OrNull(aiModel) && r.value.updatedAt == now
    ensures r.Ok? ==> Truthy(r.value.keyEncryptionKey)
    ensures r.Ok? && existing.Some? ==> r.value.id == existing.value.id && r.value.userId == existing.value.userId
    ensures r.Ok? && existing.None? ==> r.value.id == userId && r.value.userId == userId
    ensures r.Ok? && existing.Some? && Truthy(existing.value.keyEncryptionKey) ==>
      r.value.keyEncryptionKey == existing.value.keyEncryptionKey
    ensures r.Ok? && !Truthy(apiKey) ==>
      r.value.encryptedApiKey == OrNull(if existing.Some? then existing.value.encryptedApiKey else None)
  {
    var keys :- UserKeyFor(c, secret, existing, draw);
    var encryptedApiKey :- NewEncryptedApiKey(c, existing, apiKey, keys.0, draw.apiKeyIv);
    assert Truthy(Some(keys.1)) by {
      if !(existing.Some? && Truthy(existing.value.keyEncryptionKey)) {
        assert |keys.1| >= 2;
      }
    }
    match existing
    case None => Ok(SettingsRow(userId, userId, OrNull(aiProvider), OrNull(aiModel), encryptedApiKey, Some(keys.1), now))
    case Some(row) =>
      Ok(row.(aiProvider := OrNull(aiProvider), aiModel := OrNull(aiModel), encryptedApiKey := encryptedApiKey,
              keyEncryptionKey := Some(keys.1), updatedAt := now))
  }

  /**
   * The steps of `updateUserSettings` before the write: the user key is
   * reused or generated in branches, the API key encrypted or kept, and the
   * row assembled.
   */
  method SettingsRowFor(c: Crypto, secret: Option<string>, existing: Option<SettingsRow>, userId: string,
                        aiProvider: Option<string>, aiModel: Option<string>, apiKey: Option<string>,
                        draw: Fresh, now: int) returns (r: Result<SettingsRow, AuthError>)
    requires FreshSized(draw)
    ensures r == UpdatedSettings(c, secret, existing, userId, aiProvider, aiModel, apiKey, draw, now)
  {
    var userKey: string;
    var encryptedUserKey: string;
    if existing.Some? && Truthy(existing.value.keyEncryptionKey) {
      var unwrapped := DecryptUserKey(c, secret, existing.value.keyEncryptionKey.value);
      if unwrapped.Err? {
        assert UserKeyFor(c, secret, existing, draw) == Err(unwrapped.error);
        return Err(unwrapped.error);
      }
      userKey := unwrapped.value;
      encryptedUserKey := existing.value.keyEncryptionKey.value;
    } else {
      userKey := GenerateUserEncryptionKey(draw.userKey);
      var wrapped := EncryptUserKey(c, secret, draw.userKeyIv, userKey);
      if wrapped.Err? {
        assert UserKeyFor(c, secret, existing, draw) == Err(wrapped.error);
        return Err(wrapped.error);
      }
      encryptedUserKey := wrapped.value;
    }
    assert UserKeyFor(c, secret, existing, draw) == Ok((userKey, encryptedUserKey));
    var encryptedApiKey := NewEncryptedApiKey(c, existing, apiKey, userKey, draw.apiKeyIv);
    if encryptedApiKey.Err? {
      return Err(encryptedApiKey.error);
    }
    var row := match existing
      case None => SettingsRow(userId, userId, OrNull(aiProvider), OrNull(aiModel), encryptedApiKey.value, Some(encryptedUserKey), now)
      case Some(prev) => prev.(aiProvider := OrNull(aiProvider), aiModel := OrNull(aiModel), encryptedApiKey := encryptedApiKey.value,
                             keyEncryptionKey := Some(encryptedUserKey), updatedAt := now);
    return Ok(row);
  }

  /** A stored wrapped user key that unwraps to a base64 AES-256 key. */
  predicate KeyReadable(c: Crypto, secret: Option<string>, row: SettingsRow) {
    Truthy(row.keyEncryptionKey)
    && DecryptUserKey(c, secret, row.keyEncryptionKey.value).Ok?
    && |Base64Decode(DecryptUserKey(c, secret, row.keyEncryptionKey.value).value)| == KeyLength
  }

  /**
   * With a sound cipher and a configured secret, saving settings with an API
   * key into no row, or a row whose wrapped key is readable, succeeds and the
   * API key read back by `getUserSettings` is the one saved.
   */
  lemma SavedApiKeyReadsBack(c: Crypto, secret: string, existing: Option<SettingsRow>, userId: string,
                             aiProvider: Option<string>, aiModel: Option<string>, apiKey: string,
                             draw: Fresh, now: int)
    requires Sound(c) && secret != "" && apiKey != "" && FreshSized(draw)
    requires existing.None? || !Truthy(existing.value.keyEncryptionKey) || KeyReadable(c, Some(secret), existing.value)
    ensures var r := UpdatedSettings(c, Some(secret), existing, userId, aiProvider, aiModel, Some(apiKey), draw, now);
      r.Ok? && KeyReadable(c, Some(secret), r.value) && StoredApiKey(c, Some(secret), r.value) == Ok(Some(apiKey))
  {
    var s := Some(secret);
    var userKey: string;
    if existing.Some? && Truthy(existing.value.keyEncryptionKey) {
      userKey := DecryptUserKey(c, s, existing.value.keyEncryptionKey.value).value;
    } else {
      userKey := GenerateUserEncryptionKey(draw.userKey);
      UserKeyRoundTrip(c, secret, draw.userKeyIv, userKey);
    }
    var keyBytes := Base64Decode(userKey);
    EncryptDecrypt(c, keyBytes, draw.apiKeyIv, apiKey);
    var r := UpdatedSettings(c, s, existing, userId, aiProvider, aiModel, Some(apiKey), draw, now);
    assert r.Ok?;
    assert Truthy(r.value.encryptedApiKey) by {
      assert |EncryptApiKey(c, apiKey, userKey, draw.apiKeyIv).value| >= 2;
    }
  }

  /** Saving settings without an API key keeps the API key `getUserSettings` reads, when a wrapped key was stored. */
  lemma SaveWithoutApiKeyKeepsIt(c: Crypto, secret: Option<string>, existing: SettingsRow, userId: string,
                                 aiProvider: Option<string>, aiModel: Option<string>, apiKey: Option<string>,
                                 draw: Fresh, now: int)
    requires FreshSized(draw) && !Truthy(apiKey) && Truthy(existing.keyEncryptionKey)
    requires UpdatedSettings(c, secret, Some(existing), userId, aiProvider, aiModel, apiKey, draw, now).Ok?
    ensures StoredApiKey(c, secret, UpdatedSettings(c, secret, Some(existing), userId, aiProvider, aiModel, apiKey, draw, now).value)
         == StoredApiKey(c, secret, existing)
  {
  }

  /** What `rotateUserEncryptionKey` does to the user's row. */
  datatype Rotation = Rotated(row: SettingsRow) | NothingToRotate | RotationThrew(error: AuthError)

  /**
   * `rotateUserEncryptionKey`: without a row holding both an encrypted API
   * key and a wrapped user key, reports "No API key to rotate"; otherwise
   * decrypts the API key under the old user key and re-encrypts it under a
   * new one.
   */
  function Rotate(c: Crypto, secret: Option<string>, existing: Option<SettingsRow>, draw: Fresh, now: int): (r: Rotation)
    requires FreshSized(draw)
    ensures existing.None? || !Truthy(existing.value.encryptedApiKey) || !Truthy(existing.value.keyEncryptionKey)
            <==> r == NothingToRotate
    ensures r.Rotated? ==> existing.Some? && r.row == existing.value.(encryptedApiKey := r.row.encryptedApiKey,
                                                                     keyEncryptionKey := r.row.keyEncryptionKey,
                                                                     updatedAt := now)
  {
    if existing.None? || !Truthy(existing.value.encryptedApiKey) || !Truthy(existing.value.keyEncryptionKey) then NothingToRotate
    else
      var row := existing.value;
      match DecryptUserKey(c, secret, row.keyEncryptionKey.value)
      case Err(e) => RotationThrew(e)
      case Ok(oldUserKey) =>
        match DecryptApiKey(c, row.encryptedApiKey.value, oldUserKey)
        case Err(e) => RotationThrew(e)
        case Ok(apiKey) =>
          var newUserKey := GenerateUserEncryptionKey(draw.userKey);
          match EncryptUserKey(c, secret, draw.userKeyIv, newUserKey)
          case Err(e) => RotationThrew(e)
          case Ok(newWrapped) =>
            match EncryptApiKey(c, apiKey, newUserKey, draw.apiKeyIv)
            case Err(e) => RotationThrew(e)
            case Ok(newEncrypted) =>
              Rotated(row.(encryptedApiKey := Some(newEncrypted), keyEncryptionKey := Some(newWrapped), updatedAt := now))
  }

  /**
   * With a sound cipher and a configured secret, rotating a row whose API key
   * can be read succeeds, replaces both stored keys, and leaves the API key
   * `getUserSettings` reads unchanged.
   */
  lemma RotationPreservesApiKey(c: Crypto, secret: string, row: SettingsRow, draw: Fresh, now: int)
    requires Sound(c) && secret != "" && FreshSized(draw)
    requires Truthy(row.encryptedApiKey) && Truthy(row.keyEncryptionKey)
    requires StoredApiKey(c, Some(secret), row).Ok?
    ensures var r := Rotate(c, Some(secret), Some(row), draw, now);
      r.Rotated? && StoredApiKey(c, Some(secret), r.row) == StoredApiKey(c, Some(secret), row)
  {
    var s := Some(secret);
    var oldUserKey := DecryptUserKey(c, s, row.keyEncryptionKey.value).value;
    var apiKey := DecryptApiKey(c, row.encryptedApiKey.value, oldUserKey).value;
    var newUserKey := GenerateUserEncryptionKey(draw.userKey);
    UserKeyRoundTrip(c, secret, draw.userKeyIv, newUserKey);
    ApiKeyRoundTrip(c, apiKey, draw.userKey, draw.apiKeyIv);
    var newWrapped := EncryptUserKey(c, s, draw.userKeyIv, newUserKey).value;
    var newEncrypted := EncryptApiKey(c, apiKey, newUserKey, draw.apiKeyIv).value;
    assert |newWrapped| >= 2 && |newEncrypted| >= 2;
    var r := Rotate(c, s, Some(row), draw, now);
    assert r.Rotated?;
    assert r.row.keyEncryptionKey == Some(newWrapped) && r.row.encryptedApiKey == Some(newEncrypted);
  }

  /** The database the server functions read and write. */
  class ServerDb {
    var steps: map<string, StepRow>
    var lessons: map<string, LessonRow>
    var visits: map<string, VisitRow>
    var settings: map<string, SettingsRow>
    var chats: map<string, ChatRow>

    constructor()
      ensures steps == map[] && lessons == map[] && visits == map[] && settings == map[] && chats == map[]
    {
      steps, lessons, visits, settings, chats := map[], map[], map[], map[], map[];
    }

    /** `updateStepProgress`. */
    method UpdateStepProgress(userId: string, courseId: string, itemId: string, stepId: string, completed: bool, now: int)
      modifies this
      ensures steps == UpsertStep(old(steps), userId, courseId, itemId, stepId, completed, now)
      ensures lessons == old(lessons) && visits == old(visits) && settings == old(settings) && chats == old(chats)
    {
      steps := UpsertStep(steps, userId, courseId, itemId, stepId, completed, now);
    }

    /** `deleteStepProgress`. */
    method DeleteStepProgress(userId: string, courseId: string, itemId: string, stepId: string)
      modifies this
      ensures steps == DeleteStep(old(steps), userId, courseId, itemId, stepId)
      ensures lessons == old(lessons) && visits == old(visits) && settings == old(settings) && chats == old(chats)
    {
      steps := DeleteStep(steps, userId, courseId, itemId, stepId);
    }

    /** `updateLessonProgress`. */
    method UpdateLessonProgress(userId: string, courseId: string, itemId: string, completed: bool, manuallySet: Option<bool>, now: int)
      modifies this
      ensures lessons == UpsertLesson(old(lessons), userId, courseId, itemId, completed, manuallySet, now)
      ensures steps == old(steps) && visits == old(visits) && settings == old(settings) && chats == old(chats)
    {
      lessons := UpsertLesson(lessons, userId, courseId, itemId, completed, manuallySet, now);
    }

    /** `deleteLessonProgress`. */
    method DeleteLessonProgress(userId: string, courseId: string, itemId: string)
      modifies this
      ensures lessons == DeleteLesson(old(lessons), userId, courseId, itemId)
      ensures steps == old(steps) && visits == old(visits) && settings == old(settings) && chats == old(chats)
    {
      lessons := DeleteLesson(lessons, userId, courseId, itemId);
    }

    /** `updateCourseVisit`. */
    method UpdateCourseVisit(userId: string, courseId: string, lastItemId: string, lastStepId: string, now: int)
      modifies this
      ensures visits == UpsertVisit(old(visits), userId, courseId, lastItemId, lastStepId, now)
      ensures steps == old(steps) && lessons == old(lessons) && settings == old(settings) && chats == old(chats)
    {
      visits := UpsertVisit(visits, userId, courseId, lastItemId, lastStepId, now);
    }

    /** `saveStepChats`. */
    method SaveStepChats(userId: string, courseId: string, itemId: string, stepId: string,
                         messages: seq<ChatStorage.ChatMessage>, now: int)
      modifies this
      ensures chats == UpsertChat(old(chats), userId, courseId, itemId, stepId, messages, now)
      ensures steps == old(steps) && lessons == old(lessons) && visits == old(visits) && settings == old(settings)
    {
      chats := UpsertChat(chats, userId, courseId, itemId, stepId, messages, now);
    }

    /** `deleteStepChats`. */
    method DeleteStepChats(userId: string, courseId: string, itemId: string, stepId: string)
      modifies this
      ensures chats == DeleteChat(old(chats), userId, courseId, itemId, stepId)
      ensures steps == old(steps) && lessons == old(lessons) && visits == old(visits) && settings == old(settings)
    {
      chats := DeleteChat(chats, userId, courseId, itemId, stepId);
    }

    /** `updateUserSettings`: the row is built as `SettingsRowFor` does, then upserted; a throw leaves the table as it was. */
    method UpdateUserSettings(c: Crypto, secret: Option<string>, userId: string, aiProvider: Option<string>,
                              aiModel: Option<string>, apiKey: Option<string>, draw: Fresh, now: int)
      returns (r: Result<(), AuthError>)
      requires FreshSized(draw)
      modifies this
      ensures var existing := if userId in old(settings) then Some(old(settings)[userId]) else None;
        var written := UpdatedSettings(c, secret, existing, userId, aiProvider, aiModel, apiKey, draw, now);
        && (r.Ok? <==> written.Ok?)
        && (written.Ok? ==> settings == old(settings)[userId := written.value])
        && (written.Err? ==> r == Err(written.error) && settings == old(settings))
      ensures steps == old(steps) && lessons == old(lessons) && visits == old(visits) && chats == old(chats)
    {
      var existing := if userId in settings then Some(settings[userId]) else None;
      var row := SettingsRowFor(c, secret, existing, userId, aiProvider, aiModel, apiKey, draw, now);
      if row.Err? {
        return Err(row.error);
      }
      settings := settings[userId := row.value];
      r := Ok(());
    }

    /** `deleteUserSettings`. */
    method DeleteUserSettings(userId: string)
      modifies this
      ensures settings.Keys == old(settings).Keys - {userId}
      ensures forall k :: k in settings ==> settings[k] == old(settings)[k]
      ensures steps == old(steps) && lessons == old(lessons) && visits == old(visits) && chats == old(chats)
    {
      settings := settings - {userId};
    }

    /** `rotateUserEncryptionKey`: writes only when the rotation goes through. */
    method RotateUserEncryptionKey(c: Crypto, secret: Option<string>, userId: string, draw: Fresh, now: int)
      returns (r: Rotation)
      requires FreshSized(draw)
      modifies this
      ensures r == Rotate(c, secret, if userId in old(settings) then Some(old(settings)[userId]) else None, draw, now)
      ensures r.Rotated? ==> settings == old(settings)[userId := r.row]
      ensures !r.Rotated? ==> settings == old(settings)
      ensures steps == old(steps) && lessons == old(lessons) && visits == old(visits) && chats == old(chats)
    {
      var existing := if userId in settings then Some(settings[userId]) else None;
      r := Rotate(c, secret, existing, draw, now);
      if r.Rotated? {
        settings := settings[userId := r.row];
      }
    }
  }
}
