/**
 * api/instance_routes.go: the describe-instance and join-instance handlers.
 * ParseLocationString and CreateJoinToken are not part of this model: they are
 * inputs, as functions whose results (or errors) the handlers use. The world query
 * is an input too: its id condition is applied after the query has run, so it
 * does not pick the row, and the handlers merely compute it.
 */
module InstanceRoutes {
  import opened Wrappers
  import opened GoStrings
  import Worlds

  /** What ParseLocationString yields, taken as an opaque record. */
  datatype Location = Location(
    locationString: string,
    instanceId: string,
    worldId: string,
    instanceType: string,
    ownerId: string,
    region: string,
    canRequestInvite: bool,
    isStrict: bool)

  /** The JSON values the handlers send; JOpaque is a Go error value, whose encoding is not modelled. */
  datatype Json =
    | JBool(b: bool)
    | JInt(i: int)
    | JStr(s: string)
    | JArr(items: seq<Json>)
    | JObj(fields: map<string, Json>)
    | JOpaque(text: string)

  /** An HTTP status and a JSON body. */
  datatype Response = Response(status: int, body: Json)

  /** A call a handler makes to a collaborator, in the order made. */
  datatype Step =
    | ParseLocation(raw: string)
    | FindWorld(whereId: string)
    | CreateJoinToken(instance: Location)

  const PublicInstanceType: string := "public"

  /** The message of the handlers' generic failure response. */
  const GenericFailureMessage: string := "shit broke"

  /** The join-token wire format version. */
  const JoinTokenVersion: int := 1

  /** A 500 response whose body is {"error": {"message": message, "status_code": 500}}. */
  function ErrorResponse(message: Json): Response
  {
    Response(500, JObj(map["error" := JObj(map["message" := message, "status_code" := JInt(500)])]))
  }

  /** strings.Split(id, ":")[0]: the world id the handlers compute from the path. */
  function WorldIdOf(id: string): string
  {
    Split(id, ':')[0]
  }

  /** The world id is the text before the first ':' of the path id (all of it when there is none). */
  lemma WorldIdIsTextBeforeFirstColon(id: string)
    ensures WorldIdOf(id) <= id
    ensures ':' !in WorldIdOf(id)
    ensures |WorldIdOf(id)| < |id| ==> id[|WorldIdOf(id)|] == ':'
  {
    FirstPieceBeforeSeparator(id, ':');
  }

  /** The keys every describe-instance response has. */
  const FixedInstanceKeys: set<string> := {"id", "location", "instanceId", "name", "worldId", "type",
    "ownerId", "tags", "active", "full", "n_users", "capacity", "platforms", "secureName", "shortName",
    "photonRegion", "region", "canRequestInvite", "permanent", "strict"}

  /** A non-public instance also gets a key named after its type, holding its owner. */
  predicate HasDynamicKey(loc: Location)
  {
    loc.instanceType != PublicInstanceType
  }

  /** Key holds value, unless the dynamic key has the same name and overwrote it. */
  predicate FieldIs(m: map<string, Json>, key: string, value: Json, loc: Location)
  {
    key in m && (m[key] == value || (HasDynamicKey(loc) && key == loc.instanceType))
  }

  /** The describe-instance body for path id, parsed location loc and world capacity. */
  predicate DescribesInstance(m: map<string, Json>, id: string, loc: Location, capacity: int)
  {
    && m.Keys == FixedInstanceKeys + (if HasDynamicKey(loc) then {loc.instanceType} else {})
    && (HasDynamicKey(loc) ==> m[loc.instanceType] == JStr(loc.ownerId))
    && FieldIs(m, "id", JStr(id), loc)
    && FieldIs(m, "location", JStr(id), loc)
    && FieldIs(m, "instanceId", JStr(loc.locationString), loc)
    && FieldIs(m, "name", JStr(loc.instanceId), loc)
    && FieldIs(m, "worldId", JStr(loc.worldId), loc)
    && FieldIs(m, "type", JStr(loc.instanceType), loc)
    && FieldIs(m, "ownerId", JStr(loc.ownerId), loc)
    && FieldIs(m, "tags", JArr([]), loc)
    && FieldIs(m, "active", JBool(true), loc)
    && FieldIs(m, "full", JBool(false), loc)
    && FieldIs(m, "n_users", JInt(0), loc)
    && FieldIs(m, "capacity", JInt(capacity), loc)
    && FieldIs(m, "platforms", JObj(map["standalonewindows" := JInt(0), "android" := JInt(0)]), loc)
    && FieldIs(m, "secureName", JStr(""), loc)
    && FieldIs(m, "shortName", JStr(""), loc)
    && FieldIs(m, "photonRegion", JStr(loc.region), loc)
    && FieldIs(m, "region", JStr(loc.region), loc)
    && FieldIs(m, "canRequestInvite", JBool(loc.canRequestInvite), loc)
    && FieldIs(m, "permanent", JBool(true), loc)
    && FieldIs(m, "strict", JBool(loc.isStrict), loc)
  }

  /** The map literal of getInstance, before the dynamic key is added. */
  function InstanceFields(id: string, loc: Location, capacity: int): map<string, Json>
  {
  map[
    "id" := JStr(id),
    "location" := JStr(id),
    "instanceId" := JStr(loc.locationString),
    "name" := JStr(loc.instanceId),
    "worldId" := JStr(loc.worldId),
    "type" := JStr(loc.instanceType),
    "ownerId" := JStr(loc.ownerId),
    "tags" := JArr([]),
    "active" := JBool(true),
    "full" := JBool(false),
    "n_users" := JInt(0),
    "capacity" := JInt(capacity),
    "platforms" := JObj(map["standalonewindows" := JInt(0), "android" := JInt(0)]),
    "secureName" := JStr(""),
    "shortName" := JStr(""),
    "photonRegion" := JStr(loc.region),
    "region" := JStr(loc.region),
    "canRequestInvite" := JBool(loc.canRequestInvite),
    "permanent" := JBool(true),
    "strict" := JBool(loc.isStrict)
  ]
  }

  /** The literal has exactly the fixed keys. */
  lemma InstanceFieldsKeys(id: string, loc: Location, capacity: int)
    ensures InstanceFields(id, loc, capacity).Keys == FixedInstanceKeys
  {
  }

  /** The literal's identity fields: the path id and the parsed location's ids. */
  lemma InstanceFieldsIdentity(id: string, loc: Location, capacity: int, m: map<string, Json>)
    requires m == InstanceFields(id, loc, capacity)
    ensures m["id"] == JStr(id)
    ensures m["location"] == JStr(id)
    ensures m["instanceId"] == JStr(loc.locationString)
    ensures m["name"] == JStr(loc.instanceId)
    ensures m["worldId"] == JStr(loc.worldId)
  {
  }

  /** The literal's type, owner, tags and activity fields. */
  lemma InstanceFieldsOwnership(id: string, loc: Location, capacity: int, m: map<string, Json>)
    requires m == InstanceFields(id, loc, capacity)
    ensures m["type"] == JStr(loc.instanceType)
    ensures m["ownerId"] == JStr(loc.ownerId)
    ensures m["tags"] == JArr([])
    ensures m["active"] == JBool(true)
    ensures m["full"] == JBool(false)
  {
  }

  /** The literal's occupancy fields: user counts, capacity and platforms. */
  lemma InstanceFieldsOccupancy(id: string, loc: Location, capacity: int, m: map<string, Json>)
    requires m == InstanceFields(id, loc, capacity)
    ensures m["n_users"] == JInt(0)
    ensures m["capacity"] == JInt(capacity)
    ensures m["platforms"] == JObj(map["standalonewindows" := JInt(0), "android" := JInt(0)])
    ensures m["secureName"] == JStr("")
    ensures m["shortName"] == JStr("")
  {
  }

  /** The literal's region, invitation, permanence and strictness fields. */
  lemma InstanceFieldsRegion(id: string, loc: Location, capacity: int, m: map<string, Json>)
    requires m == InstanceFields(id, loc, capacity)
    ensures m["photonRegion"] == JStr(loc.region)
    ensures m["region"] == JStr(loc.region)
    ensures m["canRequestInvite"] == JBool(loc.canRequestInvite)
    ensures m["permanent"] == JBool(true)
    ensures m["strict"] == JBool(loc.isStrict)
  {
  }

  /** Without the dynamic key, the map literal alone describes the instance. */
  lemma InstanceFieldsDescribePublic(id: string, loc: Location, capacity: int)
    requires !HasDynamicKey(loc)
    ensures DescribesInstance(InstanceFields(id, loc, capacity), id, loc, capacity)
  {
    InstanceFieldsKeys(id, loc, capacity);
    InstanceFieldsIdentity(id, loc, capacity, InstanceFields(id, loc, capacity));
    InstanceFieldsOwnership(id, loc, capacity, InstanceFields(id, loc, capacity));
    InstanceFieldsOccupancy(id, loc, capacity, InstanceFields(id, loc, capacity));
    InstanceFieldsRegion(id, loc, capacity, InstanceFields(id, loc, capacity));
  }

  /** Every field of the literal survives the dynamic key, or is the key it overwrites. */
  lemma DynamicKeyKeepsFields(id: string, loc: Location, capacity: int, key: string, value: Json)
    requires HasDynamicKey(loc)
    requires key in FixedInstanceKeys && InstanceFields(id, loc, capacity)[key] == value
    ensures FieldIs(InstanceFields(id, loc, capacity)[loc.instanceType := JStr(loc.ownerId)], key, value, loc)
  {
    InstanceFieldsKeys(id, loc, capacity);
  }

  /** The literal and its dynamic key together describe the instance. */
  lemma InstanceFieldsDescribe(id: string, loc: Location, capacity: int)
    ensures var m := InstanceFields(id, loc, capacity);
      DescribesInstance(if HasDynamicKey(loc) then m[loc.instanceType := JStr(loc.ownerId)] else m, id, loc, capacity)
  {
    var m := InstanceFields(id, loc, capacity);
    if !HasDynamicKey(loc) {
      InstanceFieldsDescribePublic(id, loc, capacity);
    } else {
      InstanceFieldsKeys(id, loc, capacity);
      InstanceFieldsIdentity(id, loc, capacity, m);
      InstanceFieldsOwnership(id, loc, capacity, m);
      InstanceFieldsOccupancy(id, loc, capacity, m);
      InstanceFieldsRegion(id, loc, capacity, m);
      forall key | key in FixedInstanceKeys
        ensures FieldIs(m[loc.instanceType := JStr(loc.ownerId)], key, m[key], loc)
      {
        DynamicKeyKeepsFields(id, loc, capacity, key, m[key]);
      }
    }
  }

  /**
   * getInstance. parseLocation stands for ParseLocationString; worldQuery for the
   * outcome of the world query. A parse failure answers 500 before the world query.
   */
  method GetInstance(id: string, parseLocation: string -> Result<Location, string>, worldQuery: Result<Worlds.World, string>)
    returns (resp: Response, trace: seq<Step>)
    ensures parseLocation(id).Failure? ==>
      resp == ErrorResponse(JOpaque(parseLocation(id).error)) && trace == [ParseLocation(id)]
    ensures parseLocation(id).Success? ==> trace == [ParseLocation(id), FindWorld(WorldIdOf(id))]
    ensures parseLocation(id).Success? && worldQuery.Failure? ==> resp == ErrorResponse(JStr(GenericFailureMessage))
    ensures parseLocation(id).Success? && worldQuery.Success? ==>
      && resp.status == 200
      && resp.body.JObj?
      && DescribesInstance(resp.body.fields, id, parseLocation(id).value, worldQuery.value.capacity)
  {
    trace := [ParseLocation(id)];
    var parsed := parseLocation(id);
    if parsed.Failure? {
      return ErrorResponse(JOpaque(parsed.error)), trace;
    }
    var i := parsed.value;
    trace := trace + [FindWorld(WorldIdOf(id))];
    if worldQuery.Failure? {
      return ErrorResponse(JStr(GenericFailureMessage)), trace;
    }
    var w := worldQuery.value;
    var instanceResp := InstanceFields(id, i, w.capacity);
    InstanceFieldsDescribe(id, i, w.capacity);
    if i.instanceType != PublicInstanceType {
      instanceResp := instanceResp[i.instanceType := JStr(i.ownerId)];
    }
    return Response(200, JObj(instanceResp)), trace;
  }

  /**
   * joinInstance: the world query, then ParseLocationString, then CreateJoinToken,
   * each failure answering 500 and stopping there. createJoinToken stands for
   * CreateJoinToken applied to the requesting user and the caller's IP.
   */
  method JoinInstance(
    id: string,
    worldQuery: Result<Worlds.World, string>,
    parseLocation: string -> Result<Location, string>,
    createJoinToken: (Worlds.World, Location) -> Result<string, string>)
    returns (resp: Response, trace: seq<Step>)
    ensures worldQuery.Failure? ==>
      resp == ErrorResponse(JStr(GenericFailureMessage)) && trace == [FindWorld(WorldIdOf(id))]
    ensures worldQuery.Success? && parseLocation(id).Failure? ==>
      resp == ErrorResponse(JOpaque(parseLocation(id).error)) && trace == [FindWorld(WorldIdOf(id)), ParseLocation(id)]
    ensures worldQuery.Success? && parseLocation(id).Success? ==>
      var token := createJoinToken(worldQuery.value, parseLocation(id).value);
      && trace == [FindWorld(WorldIdOf(id)), ParseLocation(id), CreateJoinToken(parseLocation(id).value)]
      && (token.Failure? ==> resp == ErrorResponse(JStr(GenericFailureMessage)))
      && (token.Success? ==> resp == Response(200, JObj(map["token" := JStr(token.value), "version" := JInt(JoinTokenVersion)])))
  {
    trace := [FindWorld(WorldIdOf(id))];
    if worldQuery.Failure? {
      return ErrorResponse(JStr(GenericFailureMessage)), trace;
    }
    var w := worldQuery.value;
    trace := trace + [ParseLocation(id)];
    var instance := parseLocation(id);
    if instance.Failure? {
      return ErrorResponse(JOpaque(instance.error)), trace;
    }
    trace := trace + [CreateJoinToken(instance.value)];
    var t := createJoinToken(w, instance.value);
    if t.Failure? {
      return ErrorResponse(JStr(GenericFailureMessage)), trace;
    }
    return Response(200, JObj(map["token" := JStr(t.value), "version" := JInt(JoinTokenVersion)])), trace;
  }

  /** Only a successful join carries a token: every failure body is the error object alone. */
  lemma FailedJoinHasNoToken(message: Json)
    ensures ErrorResponse(message).body.JObj?
    ensures ErrorResponse(message).body.fields.Keys == {"error"}
  {
  }
}
