/**
 * The hosted data store (the `registrations` table) and object storage, as the
 * funnel sees them. What the network answers is an input (`InsertReply`,
 * `Reply`); the store adds its own two rules on top: a generated id that is
 * already taken is a primary-key violation, and an upload with `upsert: false`
 * to a key that exists is refused. Every request sent is logged, so that "no
 * request was made" can be stated.
 */
module Backend {
  import opened Wrappers
  import opened JsText

  datatype TeamMember = TeamMember(name: string, position: string)

  /** A row of `registrations`, as the funnel writes it. */
  datatype Registration = Registration(
    teamName: string,
    teamLeaderName: string,
    name: string,
    teamLeaderEmail: string,
    teamLeaderPhone: string,
    teamSize: int,
    institution: string,
    state: string,
    githubProfile: string,
    linkedinProfile: string,
    teamMembers: seq<TeamMember>,
    registrationDate: string,
    paymentScreenshot: Option<string>)

  /**
   * What the data model promises of a registration: the required texts are
   * present, the team has 2 to 4 people, one named entry per member besides
   * the leader, and the leader's name is duplicated into `name`.
   */
  predicate WellFormed(r: Registration) {
    r.teamName != [] && r.teamLeaderName != [] && r.teamLeaderEmail != [] && r.teamLeaderPhone != []
    && r.name == r.teamLeaderName
    && 2 <= r.teamSize <= 4
    && |r.teamMembers| == r.teamSize - 1
    && forall k :: 0 <= k < |r.teamMembers| ==> !IsBlank(r.teamMembers[k].name)
  }

  /** A file picked in the browser: name, declared MIME type, size in bytes. */
  datatype File = File(name: string, mimeType: string, size: nat)

  datatype ObjectKey = ObjectKey(bucket: string, path: string)

  /** The answer to insert-then-select-single: the new row's id, an error, or no row. */
  datatype InsertReply = Returned(id: string) | InsertError(message: string) | NoData

  /** The answer to an upload or an update. */
  datatype Reply = Done | Failed(message: string)

  const DuplicateKeyMessage := "duplicate key value violates unique constraint \"registrations_pkey\""
  const AlreadyExistsMessage := "The resource already exists"

  /** The insert's answer once the table's primary key has had its say. */
  function InsertAnswer(rows: map<string, Registration>, reply: InsertReply): (a: InsertReply)
    ensures a.Returned? <==> reply.Returned? && reply.id !in rows
    ensures a.Returned? ==> a == reply
    ensures reply.Returned? && reply.id in rows ==> a == InsertError(DuplicateKeyMessage)
    ensures !reply.Returned? ==> a == reply
  {
    if reply.Returned? && reply.id in rows then InsertError(DuplicateKeyMessage) else reply
  }

  /** The upload's answer: without upsert an existing key is refused. */
  function UploadAnswer(objects: map<ObjectKey, File>, key: ObjectKey, reply: Reply): (a: Reply)
    ensures a.Done? <==> reply.Done? && key !in objects
    ensures reply.Failed? ==> a == reply
  {
    if reply.Failed? then reply else if key in objects then Failed(AlreadyExistsMessage) else Done
  }

  /** `update({payment_screenshot: value}).eq('id', id)`: touches the row with that id, if any, and only its screenshot. */
  function WithScreenshot(rows: map<string, Registration>, id: string, value: string): (r: map<string, Registration>)
    ensures r.Keys == rows.Keys
    ensures forall k :: k in rows && k != id ==> r[k] == rows[k]
    ensures id in rows ==> r[id] == rows[id].(paymentScreenshot := Some(value))
  {
    if id in rows then rows[id := rows[id].(paymentScreenshot := Some(value))] else rows
  }

  /** Attaching a screenshot never breaks a row's well-formedness. */
  lemma WithScreenshotKeepsWellFormed(rows: map<string, Registration>, id: string, value: string)
    requires forall k :: k in rows ==> WellFormed(rows[k])
    ensures forall k :: k in WithScreenshot(rows, id, value) ==> WellFormed(WithScreenshot(rows, id, value)[k])
  {
  }

  class Store {
    var registrations: map<string, Registration>
    var objects: map<ObjectKey, File>
    /** Requests sent, in order. */
    var inserts: seq<Registration>
    var uploads: seq<ObjectKey>
    var updates: seq<(string, string)>

    constructor (rows: map<string, Registration>, stored: map<ObjectKey, File>)
      ensures registrations == rows && objects == stored
      ensures inserts == [] && uploads == [] && updates == []
    {
      registrations, objects := rows, stored;
      inserts, uploads, updates := [], [], [];
    }

    method Insert(row: Registration, reply: InsertReply) returns (answer: InsertReply)
      modifies this`registrations, this`inserts
      ensures answer == InsertAnswer(old(registrations), reply)
      ensures registrations == if answer.Returned? then old(registrations)[answer.id := row] else old(registrations)
      ensures inserts == old(inserts) + [row]
    {
      inserts := inserts + [row];
      answer := InsertAnswer(registrations, reply);
      if answer.Returned? {
        registrations := registrations[answer.id := row];
      }
    }

    method Upload(key: ObjectKey, file: File, reply: Reply) returns (answer: Reply)
      modifies this`objects, this`uploads
      ensures answer == UploadAnswer(old(objects), key, reply)
      ensures objects == if answer.Done? then old(objects)[key := file] else old(objects)
      ensures uploads == old(uploads) + [key]
    {
      uploads := uploads + [key];
      answer := UploadAnswer(objects, key, reply);
      if answer.Done? {
        objects := objects[key := file];
      }
    }

    method UpdateScreenshot(id: string, value: string, reply: Reply) returns (answer: Reply)
      modifies this`registrations, this`updates
      ensures answer == reply
      ensures registrations == if reply.Done? then WithScreenshot(old(registrations), id, value) else old(registrations)
      ensures updates == old(updates) + [(id, value)]
    {
      updates := updates + [(id, value)];
      answer := reply;
      if reply.Done? {
        registrations := WithScreenshot(registrations, id, value);
      }
    }
  }
}
