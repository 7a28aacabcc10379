/**
 When a create is refused and when it goes through, in terms of the document's own fields, and what the entry it
 appends consists of.
 */
module CreateConditions {
  import opened Wrappers
  import opened ExternalConfig

  // ----- redacted secrets

  datatype Step = Field(name: string) | Item(index: nat)

  /** The value that a path leads to. */
  function Along(j: Json, path: seq<Step>): Option<Json>
    decreases |path|
  {
    if path == [] then Some(j)
    else match path[0]
      case Field(name) => if j.JObject? && name in j.fields then Along(j.fields[name], path[1..]) else None
      case Item(index) => if j.JArray? && index < |j.items| then Along(j.items[index], path[1..]) else None
  }

  ghost predicate MarkedAt(j: Json, path: seq<Step>) {
    Along(j, path) in {Some(JString("<secret>")), Some(JString("********"))}
  }

  lemma AlongFirst(j: Json, step: Step, path: seq<Step>)
    ensures Along(j, [step] + path) ==
            match step
            case Field(name) => if j.JObject? && name in j.fields then Along(j.fields[name], path) else None
            case Item(index) => if j.JArray? && index < |j.items| then Along(j.items[index], path) else None
  {
    assert ([step] + path)[1..] == path;
  }

  lemma {:induction false} MarkIsSeen(j: Json, path: seq<Step>)
    requires MarkedAt(j, path)
    ensures HasRedactedSecret(j)
    decreases |path|
  {
    if path != [] {
      match path[0]
      case Field(name) => MarkIsSeen(j.fields[name], path[1..]);
      case Item(index) => MarkIsSeen(j.items[index], path[1..]);
    }
  }

  lemma {:induction false} SeenMarkIsThere(j: Json) returns (path: seq<Step>)
    requires HasRedactedSecret(j)
    ensures MarkedAt(j, path)
    decreases j
  {
    path := [];
    match j
    case JString(text) =>
    case JObject(fields) =>
      var name :| name in fields && HasRedactedSecret(fields[name]);
      path := SeenMarkIsThere(fields[name]);
      AlongFirst(j, Field(name), path);
      path := [Field(name)] + path;
    case JArray(items) =>
      var index :| 0 <= index < |items| && HasRedactedSecret(items[index]);
      path := SeenMarkIsThere(items[index]);
      AlongFirst(j, Item(index), path);
      path := [Item(index)] + path;
  }

  /** A configuration that holds a redaction mark, at any depth, is never replaced. */
  lemma RedactedIsNeverReplaced(req: Request, doc: Json, path: seq<Step>)
    requires req.CreateReceiver? && MarkedAt(doc, path)
    ensures PlanReceiver(req, Some(doc)).Err?
  {
    MarkIsSeen(doc, path);
  }

  // ----- when a create goes through

  /** A value that decodes as that string; null leaves a string empty. */
  predicate Reads(j: Json, text: string) {
    j == JString(text) || (j == JNull && text == "")
  }

  predicate IsList(j: Json) {
    j.JArray? || j == JNull
  }

  function Items(j: Json): seq<Json> {
    if j.JArray? then j.items else []
  }

  /** An existing rule that is readable and has another title; recording rules have none. */
  predicate OtherRule(rule: Json, title: string) {
    || (title != "" && (rule == JNull || (rule.JObject? && ("alert" in rule.fields ==> rule.fields["alert"] == JNull))))
    || (rule.JObject? && "alert" in rule.fields && rule.fields["alert"].JString? && rule.fields["alert"].text != title)
  }

  /** An existing receiver that is readable and has a name, and another one. */
  predicate OtherReceiver(receiver: Json, name: string) {
    && receiver.JObject? && "name" in receiver.fields && receiver.fields["name"].JString?
    && receiver.fields["name"].text != "" && receiver.fields["name"].text != name
  }

  function OrZero(d: Option<int>): int {
    if d.Some? then d.value else 0
  }

  /** No interval is asked for, or the one that is stored and readable. */
  ghost predicate IntervalAgrees(parse: DurationParser, group: map<string, Json>, interval: string) {
    interval == "" ||
    ("interval" in group && exists stored :: Reads(group["interval"], stored) && parse(stored) == Some(OrZero(parse(interval))))
  }

  ghost predicate GroupTakes(parse: DurationParser, req: Request, group: map<string, Json>)
    requires req.CreateRule?
  {
    && "name" in group && Reads(group["name"], req.group)
    && "rules" in group && IsList(group["rules"])
    && IntervalAgrees(parse, group, req.interval)
    && forall rule | rule in Items(group["rules"]) :: OtherRule(rule, req.title)
  }

  ghost predicate ConfigTakes(req: Request, doc: Json)
    requires req.CreateReceiver?
  {
    && (forall path :: !MarkedAt(doc, path))
    && doc.JObject? && "alertmanager_config" in doc.fields && doc.fields["alertmanager_config"].JObject?
    && var config := doc.fields["alertmanager_config"].fields;
       && "route" in config && config["route"].JObject?
       && "receivers" in config && Items(config["receivers"]) != []
       && forall receiver | receiver in Items(config["receivers"]) :: OtherReceiver(receiver, req.name)
  }

  lemma ListIsList(j: Json)
    ensures AsList(j) == if IsList(j) then Some(Items(j)) else None
  {
  }

  lemma ReadsIsAsString(j: Json, text: string)
    ensures AsString(j) == Some(text) <==> Reads(j, text)
  {
  }

  lemma NoConflictMeans(entries: seq<Json>, receiver: bool, name: string)
    ensures FirstConflict(entries, receiver, name) == None <==>
            forall e | e in entries :: if receiver then OtherReceiver(e, name) else OtherRule(e, name)
  {
    NoConflictIff(entries, receiver, name);
    forall e
      ensures EntryIsOther(e, receiver, name) <==> if receiver then OtherReceiver(e, name) else OtherRule(e, name)
    {
      OtherEntryMeans(e, receiver, name);
    }
    assert (forall e | e in entries :: EntryIsOther(e, receiver, name)) <==>
           forall i | 0 <= i < |entries| :: EntryIsOther(entries[i], receiver, name);
  }

  predicate EntryIsOther(e: Json, receiver: bool, name: string) {
    EntryName(receiver, e).Some? && EntryName(receiver, e) != Some(name) && (receiver ==> EntryName(receiver, e) != Some(""))
  }

  lemma OtherEntryMeans(e: Json, receiver: bool, name: string)
    ensures EntryIsOther(e, receiver, name) <==> if receiver then OtherReceiver(e, name) else OtherRule(e, name)
  {
  }

  /** An alert is created exactly in a group that does not exist, or in one that takes it. */
  lemma RuleGoesThroughIff(parse: DurationParser, req: Request, current: Option<Json>)
    requires req.CreateRule?
    ensures PlanRule(parse, req, current).Ok? <==>
            current.None? || (current.value.JObject? && GroupTakes(parse, req, current.value.fields))
  {
    hide FirstConflict, Encode, Reads, AsString, AsList, IsList, Items, OtherRule;
    if current.None? {
      NoConflictMeans([], false, req.title);
    } else if current.value.JObject? {
      var group := current.value.fields;
      if "name" in group {
        ReadsIsAsString(group["name"], req.group);
      }
      IntervalMeans(parse, req, group);
      if "rules" in group {
        ListIsList(group["rules"]);
        NoConflictMeans(Items(group["rules"]), false, req.title);
      }
    }
  }

  lemma IntervalMeans(parse: DurationParser, req: Request, group: map<string, Json>)
    requires req.CreateRule?
    ensures PlanInterval(parse, req, group) == None <==> IntervalAgrees(parse, group, req.interval)
  {
    if "interval" in group {
      forall stored
        ensures AsString(group["interval"]) == Some(stored) <==> Reads(group["interval"], stored)
      {
        ReadsIsAsString(group["interval"], stored);
      }
    }
  }

  /** A contact point is created exactly in a configuration that exists and takes it. */
  lemma ReceiverGoesThroughIff(req: Request, current: Option<Json>)
    requires req.CreateReceiver?
    ensures PlanReceiver(req, current).Ok? <==> current.Some? && ConfigTakes(req, current.value)
  {
    hide FirstConflict, Encode, AsList, IsList, Items, OtherReceiver, HasRedactedSecret, Along;
    if current.Some? && current.value.JObject? {
      var doc := current.value;
      if HasRedactedSecret(doc) {
        var path := SeenMarkIsThere(doc);
      } else {
        forall path ensures !MarkedAt(doc, path) {
          if MarkedAt(doc, path) {
            MarkIsSeen(doc, path);
          }
        }
      }
      if "alertmanager_config" in doc.fields && doc.fields["alertmanager_config"].JObject? {
        if "receivers" in doc.fields["alertmanager_config"].fields {
          ReceiversMean(doc.fields["alertmanager_config"].fields, req.name);
        }
      }
    }
  }

  lemma ReceiversMean(config: map<string, Json>, name: string)
    requires "receivers" in config
    ensures AsList(config["receivers"]) !in {None, Some([])} <==> Items(config["receivers"]) != []
    ensures Items(config["receivers"]) != [] ==> AsList(config["receivers"]) == Some(Items(config["receivers"]))
    ensures FirstConflict(Items(config["receivers"]), true, name) == None <==>
            forall e | e in Items(config["receivers"]) :: OtherReceiver(e, name)
  {
    hide FirstConflict;
    NoConflictMeans(Items(config["receivers"]), true, name);
  }

  // ----- what a refusal means

  /** The entry carries the name; a receiver's is not empty, and a rule without one has the empty one. */
  predicate HasName(e: Json, receiver: bool, name: string) {
    if receiver then name != "" && e.JObject? && "name" in e.fields && e.fields["name"] == JString(name)
    else if e.JObject? && "alert" in e.fields then Reads(e.fields["alert"], name)
    else name == "" && (e.JObject? || e == JNull)
  }

  /** The conflict is that of the first entry that stands in the way. */
  lemma {:induction false} ConflictMeans(entries: seq<Json>, receiver: bool, name: string) returns (i: nat)
    requires FirstConflict(entries, receiver, name).Some?
    ensures i < |entries| && forall k | 0 <= k < i :: EntryIsOther(entries[k], receiver, name)
    ensures FirstConflict(entries, receiver, name) == Some(if HasName(entries[i], receiver, name) then DuplicateName else InvalidEntry)
    ensures !EntryIsOther(entries[i], receiver, name)
  {
    if EntryIsOther(entries[0], receiver, name) {
      i := ConflictMeans(entries[1..], receiver, name);
      assert forall k | 1 <= k <= i :: entries[k] == entries[1..][k - 1];
      i := i + 1;
    } else {
      i := 0;
    }
  }

  /** What each refusal of an alert says is so. */
  lemma RuleRefusalMeans(parse: DurationParser, req: Request, current: Option<Json>)
    requires req.CreateRule? && PlanRule(parse, req, current).Err?
    ensures current.Some?
    ensures var error := PlanRule(parse, req, current).error;
            if !current.value.JObject? then error == InvalidObject
            else
              var group := current.value.fields;
              if "name" !in group || !Reads(group["name"], req.group) || "rules" !in group then error == UnexpectedGroup
              else if !IntervalAgrees(parse, group, req.interval) then
                error == if "interval" !in group then NoStoredInterval
                         else if group["interval"].JString? || group["interval"] == JNull then IntervalMismatch
                         else UnreadableInterval
              else if !IsList(group["rules"]) then error == InvalidList
              else FirstConflict(Items(group["rules"]), false, req.title) == Some(error)
  {
    hide FirstConflict, Encode, Items, IsList, AsList;
    if current.None? {
      NoConflictMeans([], false, req.title);
    } else if current.value.JObject? {
      var group := current.value.fields;
      if "name" in group {
        ReadsIsAsString(group["name"], req.group);
      }
      IntervalMeans(parse, req, group);
      if "rules" in group {
        ListIsList(group["rules"]);
      }
    }
  }

  /** What each refusal of a contact point says is so. */
  lemma ReceiverRefusalMeans(req: Request, current: Option<Json>)
    requires req.CreateReceiver? && PlanReceiver(req, current).Err?
    ensures var error := PlanReceiver(req, current).error;
            if current.None? then error == MissingConfig
            else if !current.value.JObject? || "alertmanager_config" !in current.value.fields
                    || !current.value.fields["alertmanager_config"].JObject? then error == InvalidObject
            else
              var config := current.value.fields["alertmanager_config"].fields;
              if "route" !in config || !config["route"].JObject? then error == NoRoute
              else if exists path :: MarkedAt(current.value, path) then error == RedactedSecrets
              else if "receivers" !in config || Items(config["receivers"]) == [] then error == InvalidList
              else FirstConflict(Items(config["receivers"]), true, req.name) == Some(error)
  {
    hide FirstConflict, Encode, AsList, Items, HasRedactedSecret, Along;
    if current.Some? && current.value.JObject? {
      if HasRedactedSecret(current.value) {
        var path := SeenMarkIsThere(current.value);
      }
      if path :| MarkedAt(current.value, path) {
        MarkIsSeen(current.value, path);
      }
      if "alertmanager_config" in current.value.fields && current.value.fields["alertmanager_config"].JObject? {
        var config := current.value.fields["alertmanager_config"].fields;
        if "receivers" in config {
          ReceiversMean(config, req.name);
        }
      }
    }
  }

  // ----- what is appended, and where

  /** A field is there with that text exactly when the text is not empty. */
  predicate Optional(fields: map<string, Json>, name: string, text: string) {
    if text == "" then name !in fields else name in fields && fields[name] == JString(text)
  }

  predicate OptionalJson(fields: map<string, Json>, name: string, j: Option<Json>) {
    if j.None? then name !in fields else name in fields && fields[name] == j.value
  }

  /** The whole of an appended alert. */
  lemma RuleIsWritten(req: Request)
    requires req.CreateRule?
    ensures var rule := Encode(req);
            && rule.JObject?
            && rule.fields.Keys <= {"alert", "expr", "for", "keep_firing_for", "labels", "annotations"}
            && Optional(rule.fields, "for", req.forDuration) && Optional(rule.fields, "keep_firing_for", req.keepFiringFor)
            && OptionalJson(rule.fields, "labels", req.labels) && OptionalJson(rule.fields, "annotations", req.annotations)
            && "alert" in rule.fields && rule.fields["alert"] == JString(req.title)
            && "expr" in rule.fields && rule.fields["expr"] == JString(req.expression)
  {
  }

  /** The whole of an appended receiver: its name, and one integration of its type. */
  lemma ReceiverIsWritten(req: Request)
    requires req.CreateReceiver?
    ensures Encode(req) == JObject(map["name" := JString(req.name), req.kind + "_configs" := JArray([req.settings])])
  {
    assert |req.kind + "_configs"| >= 8 > |"name"|;
  }

  lemma NewGroupIsWritten(req: Request)
    requires req.CreateRule?
    ensures var group := NewGroup(req);
            && group.Keys == {"name", "interval"} && group["name"] == JString(req.group)
            && group["interval"] == JString(if req.interval == "" then "1m" else req.interval)
  {
  }

  /** Creates share a gate and a document exactly when they are for one rule group, or one Alertmanager. */
  lemma SameDestinationIff(a: Request, b: Request)
    ensures KeyOf(a) == KeyOf(b) <==>
            && a.instance == b.instance && a.uid == b.uid && a.CreateRule? == b.CreateRule?
            && (a.CreateRule? ==> a.namespace == b.namespace && a.group == b.group)
  {
  }
}
