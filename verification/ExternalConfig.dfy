/**
 The part of an external create request between the read and the write: from the
 document the backend returned to the document that replaces it. Raw JSON is an
 opaque tree, so "kept verbatim" is equality of trees.
 */
module ExternalConfig {
  import opened Wrappers

  datatype Json =
    | JNull
    | JString(text: string)
    | JArray(items: seq<Json>)
    | JObject(fields: map<string, Json>)
    | JOther(raw: string)

  datatype WriteKey =
    WriteKey(instance: string, uid: string, namespace: string, group: string, receiver: bool)

  datatype Request =
    | CreateRule(instance: string, uid: string, namespace: string, group: string, title: string,
                 expression: string, forDuration: string, keepFiringFor: string,
                 labels: Option<Json>, annotations: Option<Json>, interval: string)
    | CreateReceiver(instance: string, uid: string, name: string, kind: string, settings: Json)

  datatype Error =
    | MissingConfig
    | InvalidObject
    | UnexpectedGroup
    | NoStoredInterval
    | UnreadableInterval
    | IntervalMismatch
    | InvalidList
    | InvalidEntry
    | DuplicateName
    | NoRoute
    | RedactedSecrets

  /** model.ParseDuration, a library function: None is its error result. */
  type DurationParser = string -> Option<int>

  function KeyOf(req: Request): WriteKey {
    match req
    case CreateRule(instance, uid, namespace, group, _, _, _, _, _, _, _) =>
      WriteKey(instance, uid, namespace, group, false)
    case CreateReceiver(instance, uid, _, _, _) =>
      WriteKey(instance, uid, "", "", true)
  }

  function NameOf(req: Request): string {
    if req.CreateRule? then req.title else req.name
  }

  /** The JSON entry a request appends. */
  function Encode(req: Request): Json {
    match req
    case CreateRule(_, _, _, _, title, expression, forDuration, keepFiringFor, labels, annotations, _) =>
      var rule := map["alert" := JString(title), "expr" := JString(expression)];
      var rule := if forDuration != "" then rule["for" := JString(forDuration)] else rule;
      var rule := if keepFiringFor != "" then rule["keep_firing_for" := JString(keepFiringFor)] else rule;
      var rule := if labels.Some? then rule["labels" := labels.value] else rule;
      var rule := if annotations.Some? then rule["annotations" := annotations.value] else rule;
      JObject(rule)
    case CreateReceiver(_, _, name, kind, settings) =>
      JObject(map[kind + "_configs" := JArray([settings]), "name" := JString(name)])
  }

  // ----- decoding

  /** json.Unmarshal into a string variable that starts empty: null leaves it alone. */
  function AsString(j: Json): Option<string> {
    match j
    case JString(text) => Some(text)
    case JNull => Some("")
    case _ => None
  }

  /** json.Unmarshal into a slice of raw messages: null gives the nil slice. */
  function AsList(j: Json): Option<seq<Json>> {
    match j
    case JArray(items) => Some(items)
    case JNull => Some([])
    case _ => None
  }

  /** Reads one string field of a struct. A null document and an absent field both leave it empty. */
  function StringField(j: Json, field: string): Option<string> {
    match j
    case JObject(fields) => if field in fields then AsString(fields[field]) else Some("")
    case JNull => Some("")
    case _ => None
  }

  predicate HasRedactedSecret(j: Json) {
    match j
    case JString(text) => text == "<secret>" || text == "********"
    case JObject(fields) => exists k | k in fields :: HasRedactedSecret(fields[k])
    case JArray(items) => exists i | 0 <= i < |items| :: HasRedactedSecret(items[i])
    case _ => false
  }

  // ----- planning

  /** The first entry that is unreadable or already carries the name. */
  function FirstConflict(entries: seq<Json>, receiver: bool, name: string): Option<Error> {
    if entries == [] then None
    else
      var existing := StringField(entries[0], if receiver then "name" else "alert");
      if existing.None? || (receiver && existing.value == "") then Some(InvalidEntry)
      else if existing.value == name then Some(DuplicateName)
      else FirstConflict(entries[1..], receiver, name)
  }

  function PlanInterval(parse: DurationParser, req: Request, group: map<string, Json>): Option<Error>
    requires req.CreateRule?
  {
    if req.interval == "" then None
    else if "interval" !in group then Some(NoStoredInterval)
    else match AsString(group["interval"])
      case None => Some(UnreadableInterval)
      case Some(stored) =>
        var requested := match parse(req.interval) case Some(d) => d case None => 0;
        if parse(stored) == Some(requested) then None else Some(IntervalMismatch)
  }

  /** The fields of a group that does not exist yet. */
  function NewGroup(req: Request): map<string, Json>
    requires req.CreateRule?
  {
    map["name" := JString(req.group), "interval" := JString(if req.interval == "" then "1m" else req.interval)]
  }

  function StartGroup(parse: DurationParser, req: Request, current: Option<Json>): Result<map<string, Json>, Error>
    requires req.CreateRule?
  {
    match current
    case None => Ok(NewGroup(req))
    case Some(JObject(group)) =>
      if "name" !in group || AsString(group["name"]) != Some(req.group) || "rules" !in group then
        Err(UnexpectedGroup)
      else
        (match PlanInterval(parse, req, group)
         case Some(e) => Err(e)
         case None => Ok(group))
    case Some(_) => Err(InvalidObject)
  }

  function PlanRule(parse: DurationParser, req: Request, current: Option<Json>): Result<Json, Error>
    requires req.CreateRule?
  {
    match StartGroup(parse, req, current)
    case Err(e) => Err(e)
    case Ok(group) =>
      var rules := if "rules" in group then AsList(group["rules"]) else Some([]);
      if rules.None? then Err(InvalidList)
      else match FirstConflict(rules.value, false, req.title)
        case Some(e) => Err(e)
        case None => Ok(JObject(group["rules" := JArray(rules.value + [Encode(req)])]))
  }

  function PlanReceiver(req: Request, current: Option<Json>): Result<Json, Error>
    requires req.CreateReceiver?
  {
    match current
    case None => Err(MissingConfig)
    case Some(JObject(envelope)) =>
      if "alertmanager_config" !in envelope || !envelope["alertmanager_config"].JObject? then Err(InvalidObject)
      else
        var config := envelope["alertmanager_config"].fields;
        if "route" !in config || !config["route"].JObject? then Err(NoRoute)
        else if HasRedactedSecret(JObject(envelope)) then Err(RedactedSecrets)
        else if "receivers" !in config || AsList(config["receivers"]) in {None, Some([])} then Err(InvalidList)
        else
          var receivers := AsList(config["receivers"]).value;
          (match FirstConflict(receivers, true, req.name)
           case Some(e) => Err(e)
           case None =>
             var config' := config["receivers" := JArray(receivers + [Encode(req)])];
             Ok(JObject(envelope["alertmanager_config" := JObject(config')])))
    case Some(_) => Err(InvalidObject)
  }

  /** What one create request turns the current document into, or why it refuses. */
  function Plan(parse: DurationParser, req: Request, current: Option<Json>): Result<Json, Error> {
    if req.CreateRule? then PlanRule(parse, req, current) else PlanReceiver(req, current)
  }

  // ----- what a plan keeps

  /** The entry list of a stored document; a missing or unreadable list counts as empty. */
  function Entries(receiver: bool, current: Option<Json>): seq<Json> {
    if current.None? || !current.value.JObject? then []
    else
      var top := current.value.fields;
      if !receiver then
        if "rules" in top && AsList(top["rules"]).Some? then AsList(top["rules"]).value else []
      else if "alertmanager_config" in top && top["alertmanager_config"].JObject? then
        var config := top["alertmanager_config"].fields;
        if "receivers" in config && AsList(config["receivers"]).Some? then AsList(config["receivers"]).value else []
      else []
  }

  /** Everything in the document except its entry list: the outer fields, then the inner ones. */
  function Rest(receiver: bool, doc: Json): (map<string, Json>, map<string, Json>) {
    if !doc.JObject? then (map[], map[])
    else if !receiver then (doc.fields - {"rules"}, map[])
    else if "alertmanager_config" in doc.fields && doc.fields["alertmanager_config"].JObject? then
      (doc.fields - {"alertmanager_config"}, doc.fields["alertmanager_config"].fields - {"receivers"})
    else (doc.fields - {"alertmanager_config"}, map[])
  }

  function EntryName(receiver: bool, entry: Json): Option<string> {
    StringField(entry, if receiver then "name" else "alert")
  }

  lemma {:induction false} NoConflictIff(entries: seq<Json>, receiver: bool, name: string)
    ensures FirstConflict(entries, receiver, name) == None <==>
            forall i | 0 <= i < |entries| ::
              && EntryName(receiver, entries[i]).Some?
              && EntryName(receiver, entries[i]) != Some(name)
              && (receiver ==> EntryName(receiver, entries[i]) != Some(""))
  {
    if entries != [] {
      NoConflictIff(entries[1..], receiver, name);
      assert forall i | 1 <= i < |entries| :: entries[i] == entries[1..][i - 1];
      assert forall i | 0 <= i < |entries[1..]| :: entries[1..][i] == entries[i + 1];
    }
  }

  lemma EncodedName(req: Request)
    ensures EntryName(req.CreateReceiver?, Encode(req)) == Some(NameOf(req))
  {
    if req.CreateRule? {
      assert "alert" != "expr" && "alert" != "for" && "alert" != "keep_firing_for"
             && "alert" != "labels" && "alert" != "annotations";
    }
  }

  /**
   A successful plan appends exactly the encoded entry, whose name was free, and
   leaves every other field of an existing document as it was.
   */
  lemma PlanAppends(parse: DurationParser, req: Request, current: Option<Json>)
    requires Plan(parse, req, current).Ok?
    ensures var doc := Plan(parse, req, current).value;
            var kind := req.CreateReceiver?;
            && Entries(kind, Some(doc)) == Entries(kind, current) + [Encode(req)]
            && (current.Some? ==> Rest(kind, doc) == Rest(kind, current.value))
            && (current.None? ==> req.CreateRule? && Rest(kind, doc).0 == NewGroup(req))
            && (forall e | e in Entries(kind, current) :: EntryName(kind, e).Some? && EntryName(kind, e) != Some(NameOf(req)))
  {
    var doc := Plan(parse, req, current).value;
    NoConflictIff(Entries(req.CreateReceiver?, current), req.CreateReceiver?, NameOf(req));
    if req.CreateRule? {
      var group := StartGroup(parse, req, current).value;
      assert doc.fields - {"rules"} == group - {"rules"};
    } else {
      var envelope := current.value.fields;
      assert doc.fields - {"alertmanager_config"} == envelope - {"alertmanager_config"};
      var before, after := envelope["alertmanager_config"].fields, doc.fields["alertmanager_config"].fields;
      assert after - {"receivers"} == before - {"receivers"};
    }
  }

  // ----- the edits as the handlers make them

  /** Scans the existing entries in order, as both handlers do before appending. */
  method CheckEntries(entries: seq<Json>, receiver: bool, name: string) returns (conflict: Option<Error>)
    ensures conflict == FirstConflict(entries, receiver, name)
  {
    for i := 0 to |entries|
      invariant FirstConflict(entries, receiver, name) == FirstConflict(entries[i..], receiver, name)
    {
      var existing := StringField(entries[i], if receiver then "name" else "alert");
      if existing.None? || (receiver && existing.value == "") {
        return Some(InvalidEntry);
      }
      if existing.value == name {
        return Some(DuplicateName);
      }
    }
    return None;
  }

  /** createDatasourceAlertRule, between its GET and its POST. */
  method EditRuleGroup(parse: DurationParser, req: Request, current: Option<Json>) returns (result: Result<Json, Error>)
    requires req.CreateRule?
    ensures result == PlanRule(parse, req, current)
  {
    var group: map<string, Json> := map[];
    if current.None? {
      group := group["name" := JString(req.group)];
      group := group["interval" := JString(if req.interval == "" then "1m" else req.interval)];
    } else {
      if !current.value.JObject? {
        return Err(InvalidObject);
      }
      group := current.value.fields;
      if "name" !in group || AsString(group["name"]) != Some(req.group) || "rules" !in group {
        return Err(UnexpectedGroup);
      }
      if req.interval != "" {
        if "interval" !in group {
          return Err(NoStoredInterval);
        }
        var stored := AsString(group["interval"]);
        if stored.None? {
          return Err(UnreadableInterval);
        }
        var existing := parse(stored.value);
        var requested := parse(req.interval);
        if existing.None? || existing.value != (if requested.Some? then requested.value else 0) {
          return Err(IntervalMismatch);
        }
      }
    }
    var rules: seq<Json> := [];
    if "rules" in group {
      var decoded := AsList(group["rules"]);
      if decoded.None? {
        return Err(InvalidList);
      }
      rules := decoded.value;
    }
    var conflict := CheckEntries(rules, false, req.title);
    if conflict.Some? {
      return Err(conflict.value);
    }
    group := group["rules" := JArray(rules + [Encode(req)])];
    return Ok(JObject(group));
  }

  /** createExternalContactPoint, between its GET and its POST. */
  method EditReceivers(req: Request, current: Option<Json>) returns (result: Result<Json, Error>)
    requires req.CreateReceiver?
    ensures result == PlanReceiver(req, current)
  {
    if current.None? {
      return Err(MissingConfig);
    }
    if !current.value.JObject? {
      return Err(InvalidObject);
    }
    var envelope := current.value.fields;
    if "alertmanager_config" !in envelope || !envelope["alertmanager_config"].JObject? {
      return Err(InvalidObject);
    }
    var config := envelope["alertmanager_config"].fields;
    if "route" !in config || !config["route"].JObject? {
      return Err(NoRoute);
    }
    if HasRedactedSecret(current.value) {
      return Err(RedactedSecrets);
    }
    if "receivers" !in config || AsList(config["receivers"]).None? || |AsList(config["receivers"]).value| == 0 {
      return Err(InvalidList);
    }
    var receivers := AsList(config["receivers"]).value;
    var conflict := CheckEntries(receivers, true, req.name);
    if conflict.Some? {
      return Err(conflict.value);
    }
    config := config["receivers" := JArray(receivers + [Encode(req)])];
    envelope := envelope["alertmanager_config" := JObject(config)];
    return Ok(JObject(envelope));
  }
}
