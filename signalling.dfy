/** The VoIP wire-event schemas of src/signalling_events.ts, written as
    schema values, with what each one accepts stated field by field. */
module SignallingEvents {
  import opened Wrappers
  import opened JsonSchema

  const StringSchema: Schema := Typed(TString)
  const NumberSchema: Schema := Typed(TNumber)
  /** `{ type: 'string', nullable: true }` */
  const NullableString: Schema := Typed(TString).(nullable := true)

  /** The single `anyOf` branch: `version` is the constant 1 and `party_id`
      is present. */
  const VersionOneBranch: Schema :=
    Empty.(properties := map["version" := Empty.(constOf := Some(JNumber(1)))], required := ["party_id"])

  /** The properties every event shares. */
  const EventProperties: map<string, Schema> :=
    map["call_id" := StringSchema, "party_id" := NullableString, "version" := NumberSchema]

  const EventSchema: Schema :=
    Schema("src/signalling_events.ts/IVoipEvent", Some(TObject), EventProperties,
           ["call_id", "version"], [VersionOneBranch], None, None, false, None)

  /** The `offer` and `answer` objects: a string `sdp` and a `type` that is
      the single string `t`. */
  function Description(t: string): Schema {
    Typed(TObject).(
      properties := map["sdp" := StringSchema, "type" := StringSchema.(enumOf := Some([JString(t)]))],
      required := ["sdp", "type"])
  }

  const InviteSchema: Schema :=
    Schema("src/signalling_events.ts/IVoipInvite", Some(TObject),
           EventProperties["lifetime" := NumberSchema]["offer" := Description("offer")],
           ["call_id", "version", "lifetime", "offer"], [VersionOneBranch], None, None, false, None)

  const CandidateSchema: Schema :=
    Typed(TObject).(
      properties := map["candidate" := StringSchema, "sdpMLineIndex" := NumberSchema, "sdpMid" := StringSchema],
      required := ["candidate", "sdpMLineIndex", "sdpMid"])

  const CandidatesSchema: Schema :=
    Schema("src/signalling_events.ts/IVoipCandidates", Some(TObject),
           EventProperties["candidates" := Typed(TArray).(items := Some(CandidateSchema))],
           ["call_id", "version", "candidates"], [VersionOneBranch], None, None, false, None)

  const AnswerSchema: Schema :=
    Schema("src/signalling_events.ts/IVoipAnswer", Some(TObject),
           EventProperties["answer" := Description("answer")],
           ["call_id", "version", "answer"], [VersionOneBranch], None, None, false, None)

  /** `Object.assign({}, IVoipEvent.JSON, { $id })` */
  const HangupSchema: Schema := EventSchema.(id := "src/signalling_events.ts/IVoipHangup")

  const RejectSchema: Schema :=
    Schema("src/signalling_events.ts/IVoipReject", Some(TObject),
           map["call_id" := StringSchema, "party_id" := StringSchema,
               "version" := Typed(TNumber).(constOf := Some(JNumber(1)))],
           ["call_id", "version", "party_id"], [], None, None, false, None)

  datatype EventKind = Invite | Candidates | Answer | Hangup | Reject

  function SchemaOf(kind: EventKind): Schema {
    match kind
    case Invite => InviteSchema
    case Candidates => CandidatesSchema
    case Answer => AnswerSchema
    case Hangup => HangupSchema
    case Reject => RejectSchema
  }

  // What the schemas accept, stated directly on an object's fields.

  /** The common fields as the single-branch `anyOf` leaves them: a string
      `call_id`, `version` exactly 1, and `party_id` present as a string or
      null. */
  predicate EventFields(o: map<string, Json>) {
    StringField(o, "call_id")
    && "version" in o && o["version"] == JNumber(1)
    && "party_id" in o && (o["party_id"].JString? || o["party_id"].JNull?)
  }

  predicate IsDescription(j: Json, t: string) {
    j.JObject? && StringField(j.fields, "sdp") && "type" in j.fields && j.fields["type"] == JString(t)
  }

  predicate IsCandidate(j: Json) {
    j.JObject? && StringField(j.fields, "candidate") && NumberField(j.fields, "sdpMLineIndex")
    && StringField(j.fields, "sdpMid")
  }

  /** The event schemas without their properties: an object and the
      `anyOf` branch. */
  const EventBase: Schema := Typed(TObject).(anyOf := [VersionOneBranch])

  /** The `anyOf` branch holds for non-objects, and on objects asks for
      `party_id` and, when `version` is present, for version 1. */
  lemma VersionOneBranchAccepts(j: Json)
    ensures Validates(VersionOneBranch, j) <==>
              (j.JObject? ==> "party_id" in j.fields && ("version" in j.fields ==> j.fields["version"] == JNumber(1)))
  {
    if j.JObject? && "version" in j.fields {
      assert Validates(Empty.(constOf := Some(JNumber(1))), j.fields["version"]) <==> j.fields["version"] == JNumber(1);
    }
  }

  lemma BaseAccepts(j: Json)
    ensures Validates(EventBase, j) <==>
              j.JObject? && "party_id" in j.fields && ("version" in j.fields ==> j.fields["version"] == JNumber(1))
  {
    VersionOneBranchAccepts(j);
  }

  /** The three shared properties added to a base schema, `call_id` and
      `version` as required. */
  function WithEventProperties(base: Schema): Schema {
    WithProperty(WithProperty(WithProperty(base, "call_id", StringSchema, true), "party_id", NullableString, false),
                 "version", NumberSchema, true)
  }

  /** The first two shared properties. */
  lemma EventPrefixAccepts(base: Schema, j: Json)
    requires base.properties == map[]
    ensures Validates(WithProperty(WithProperty(base, "call_id", StringSchema, true), "party_id", NullableString, false), j) <==>
              Validates(base, j)
              && (j.JObject? ==> StringField(j.fields, "call_id")
                                 && ("party_id" in j.fields ==> j.fields["party_id"].JString? || j.fields["party_id"].JNull?))
  {
    var s1 := WithProperty(base, "call_id", StringSchema, true);
    WithPropertyAccepts(s1, "party_id", NullableString, false, j);
    WithTypedAccepts(base, "call_id", TString, true, j);
    if j.JObject? && "party_id" in j.fields {
      NullableAccepts(TString, j.fields["party_id"]);
    }
  }

  lemma EventPropertiesAccept(base: Schema, j: Json)
    requires base.properties == map[]
    ensures Validates(WithEventProperties(base), j) <==>
              Validates(base, j)
              && (j.JObject? ==> StringField(j.fields, "call_id") && NumberField(j.fields, "version")
                                 && ("party_id" in j.fields ==> j.fields["party_id"].JString? || j.fields["party_id"].JNull?))
  {
    var s2 := WithProperty(WithProperty(base, "call_id", StringSchema, true), "party_id", NullableString, false);
    WithTypedAccepts(s2, "version", TNumber, true, j);
    EventPrefixAccepts(base, j);
  }

  /** `IVoipEvent` is the base with `call_id` and `version` required and
      `party_id` optional. */
  lemma EventStructure()
    ensures EventSchema == WithEventProperties(EventBase).(id := EventSchema.id)
  {
  }

  /** `IVoipEvent` accepts exactly: an object with a string `call_id`, a
      `version` of 1 and a `party_id` that is a string or null. */
  lemma EventAcceptsExactly(j: Json)
    ensures Validates(EventSchema, j) <==> j.JObject? && EventFields(j.fields)
  {
    EventStructure();
    IdIrrelevant(WithEventProperties(EventBase), EventSchema.id, j);
    EventPropertiesAccept(EventBase, j);
    BaseAccepts(j);
  }

  lemma DescriptionStructure(t: string)
    ensures Description(t) == WithProperty(WithProperty(Typed(TObject), "sdp", StringSchema, true),
                                           "type", StringSchema.(enumOf := Some([JString(t)])), true)
  {
  }

  lemma DescriptionAccepts(t: string, j: Json)
    ensures Validates(Description(t), j) <==> IsDescription(j, t)
  {
    var s1 := WithProperty(Typed(TObject), "sdp", StringSchema, true);
    DescriptionStructure(t);
    WithPropertyAccepts(s1, "type", StringSchema.(enumOf := Some([JString(t)])), true, j);
    WithPropertyAccepts(Typed(TObject), "sdp", StringSchema, true, j);
    TypedAccepts(TObject, j);
    if j.JObject? && "sdp" in j.fields {
      TypedAccepts(TString, j.fields["sdp"]);
    }
  }

  lemma CandidateStructure()
    ensures CandidateSchema == WithProperty(WithProperty(WithProperty(Typed(TObject), "candidate", StringSchema, true),
                                                         "sdpMLineIndex", NumberSchema, true),
                                            "sdpMid", StringSchema, true)
  {
  }

  lemma CandidateAccepts(j: Json)
    ensures Validates(CandidateSchema, j) <==> IsCandidate(j)
  {
    var s1 := WithProperty(Typed(TObject), "candidate", StringSchema, true);
    var s2 := WithProperty(s1, "sdpMLineIndex", NumberSchema, true);
    CandidateStructure();
    WithPropertyAccepts(s2, "sdpMid", StringSchema, true, j);
    WithPropertyAccepts(s1, "sdpMLineIndex", NumberSchema, true, j);
    WithPropertyAccepts(Typed(TObject), "candidate", StringSchema, true, j);
    TypedAccepts(TObject, j);
    if j.JObject? {
      var f := j.fields;
      if "candidate" in f {
        TypedAccepts(TString, f["candidate"]);
      }
      if "sdpMLineIndex" in f {
        TypedAccepts(TNumber, f["sdpMLineIndex"]);
      }
      if "sdpMid" in f {
        TypedAccepts(TString, f["sdpMid"]);
      }
    }
  }

  /** `IVoipInvite` is `IVoipEvent` with a required `lifetime` and `offer`. */
  lemma InviteStructure()
    ensures InviteSchema == WithProperty(WithProperty(EventSchema, "lifetime", NumberSchema, true),
                                         "offer", Description("offer"), true).(id := InviteSchema.id)
  {
  }

  lemma EventWithLifetimeAccepts(j: Json)
    ensures Validates(WithProperty(EventSchema, "lifetime", NumberSchema, true), j) <==>
              j.JObject? && EventFields(j.fields) && NumberField(j.fields, "lifetime")
  {
    WithPropertyAccepts(EventSchema, "lifetime", NumberSchema, true, j);
    EventAcceptsExactly(j);
    if j.JObject? && "lifetime" in j.fields {
      TypedAccepts(TNumber, j.fields["lifetime"]);
    }
  }

  /** `IVoipInvite` adds a numeric `lifetime` and an `offer` description. */
  lemma InviteAcceptsExactly(j: Json)
    ensures Validates(InviteSchema, j) <==>
              j.JObject? && EventFields(j.fields) && NumberField(j.fields, "lifetime")
              && "offer" in j.fields && IsDescription(j.fields["offer"], "offer")
  {
    var s1 := WithProperty(EventSchema, "lifetime", NumberSchema, true);
    var s2 := WithProperty(s1, "offer", Description("offer"), true);
    InviteStructure();
    IdIrrelevant(s2, InviteSchema.id, j);
    WithPropertyAccepts(s1, "offer", Description("offer"), true, j);
    EventWithLifetimeAccepts(j);
    if j.JObject? && "offer" in j.fields {
      DescriptionAccepts("offer", j.fields["offer"]);
    }
  }

  /** The `candidates` property: an array of candidates. */
  const CandidateList: Schema := Typed(TArray).(items := Some(CandidateSchema))

  lemma CandidateListAccepts(j: Json)
    ensures Validates(CandidateList, j) <==> j.JArray? && forall c | c in j.elems :: IsCandidate(c)
  {
    if j.JArray? {
      forall c | c in j.elems
        ensures Validates(CandidateSchema, c) <==> IsCandidate(c)
      {
        CandidateAccepts(c);
      }
    }
  }

  lemma CandidatesStructure()
    ensures CandidatesSchema == WithProperty(EventSchema, "candidates", CandidateList, true).(id := CandidatesSchema.id)
  {
  }

  /** `IVoipCandidates` adds a `candidates` array each element of which is a
      candidate; an empty array is accepted. */
  lemma CandidatesAcceptsExactly(j: Json)
    ensures Validates(CandidatesSchema, j) <==>
              j.JObject? && EventFields(j.fields) && "candidates" in j.fields && j.fields["candidates"].JArray?
              && forall c | c in j.fields["candidates"].elems :: IsCandidate(c)
  {
    var s1 := WithProperty(EventSchema, "candidates", CandidateList, true);
    CandidatesStructure();
    IdIrrelevant(s1, CandidatesSchema.id, j);
    WithPropertyAccepts(EventSchema, "candidates", CandidateList, true, j);
    EventAcceptsExactly(j);
    if j.JObject? && "candidates" in j.fields {
      CandidateListAccepts(j.fields["candidates"]);
    }
  }

  lemma AnswerStructure()
    ensures AnswerSchema == WithProperty(EventSchema, "answer", Description("answer"), true).(id := AnswerSchema.id)
  {
  }

  /** `IVoipAnswer` adds an `answer` description. */
  lemma AnswerAcceptsExactly(j: Json)
    ensures Validates(AnswerSchema, j) <==>
              j.JObject? && EventFields(j.fields) && "answer" in j.fields && IsDescription(j.fields["answer"], "answer")
  {
    var s1 := WithProperty(EventSchema, "answer", Description("answer"), true);
    AnswerStructure();
    IdIrrelevant(s1, AnswerSchema.id, j);
    WithPropertyAccepts(EventSchema, "answer", Description("answer"), true, j);
    EventAcceptsExactly(j);
    if j.JObject? && "answer" in j.fields {
      DescriptionAccepts("answer", j.fields["answer"]);
    }
  }

  /** `IVoipHangup` is the `IVoipEvent` rule set under another `$id`. */
  lemma {:induction false} HangupIsEvent(j: Json)
    ensures Validates(HangupSchema, j) <==> Validates(EventSchema, j)
    ensures Validates(HangupSchema, j) <==> j.JObject? && EventFields(j.fields)
  {
    IdIrrelevant(EventSchema, "src/signalling_events.ts/IVoipHangup", j);
    EventAcceptsExactly(j);
  }

  /** The `version` property of `IVoipReject`. */
  const VersionOne: Schema := NumberSchema.(constOf := Some(JNumber(1)))

  lemma RejectStructure()
    ensures RejectSchema == WithProperty(WithProperty(WithProperty(Typed(TObject), "call_id", StringSchema, true),
                                                      "version", VersionOne, true),
                                         "party_id", StringSchema, true).(id := RejectSchema.id)
  {
  }

  /** The first two properties of `IVoipReject`. */
  lemma RejectPrefixAccepts(j: Json)
    ensures Validates(WithProperty(WithProperty(Typed(TObject), "call_id", StringSchema, true), "version", VersionOne, true), j)
            <==> j.JObject? && StringField(j.fields, "call_id") && "version" in j.fields && j.fields["version"] == JNumber(1)
  {
    var s1 := WithProperty(Typed(TObject), "call_id", StringSchema, true);
    WithPropertyAccepts(s1, "version", VersionOne, true, j);
    WithTypedAccepts(Typed(TObject), "call_id", TString, true, j);
    TypedAccepts(TObject, j);
    if j.JObject? && "version" in j.fields {
      assert Validates(VersionOne, j.fields["version"]) <==> j.fields["version"] == JNumber(1);
    }
  }

  /** `IVoipReject` has no `anyOf`: `version` is the constant 1 through its
      own property, and `party_id` is a required string, never null. */
  lemma RejectAcceptsExactly(j: Json)
    ensures Validates(RejectSchema, j) <==>
              j.JObject? && StringField(j.fields, "call_id") && StringField(j.fields, "party_id")
              && "version" in j.fields && j.fields["version"] == JNumber(1)
  {
    var s2 := WithProperty(WithProperty(Typed(TObject), "call_id", StringSchema, true), "version", VersionOne, true);
    RejectStructure();
    IdIrrelevant(WithProperty(s2, "party_id", StringSchema, true), RejectSchema.id, j);
    WithTypedAccepts(s2, "party_id", TString, true, j);
    RejectPrefixAccepts(j);
  }

  /** Whatever its kind, a valid event is an object with a string `call_id`,
      `version` 1 and a `party_id`. */
  lemma OnlyVersionOne(kind: EventKind, j: Json)
    ensures Validates(SchemaOf(kind), j) ==>
              j.JObject? && StringField(j.fields, "call_id") && "party_id" in j.fields
              && "version" in j.fields && j.fields["version"] == JNumber(1)
  {
    match kind
    case Invite => InviteAcceptsExactly(j);
    case Candidates => CandidatesAcceptsExactly(j);
    case Answer => AnswerAcceptsExactly(j);
    case Hangup => HangupIsEvent(j);
    case Reject => RejectAcceptsExactly(j);
  }

  // The single-branch `anyOf` rejects every version 0 event. The evidently
  // intended rule lets version 0 through and asks for `party_id` only at
  // version 1.

  /** A version 0 hang-up, which carries no `party_id`. */
  const VersionZeroHangup: Json := JObject(map["call_id" := JString("c"), "version" := JNumber(0)])

  lemma VersionZeroRejected()
    ensures !Validates(HangupSchema, VersionZeroHangup)
    ensures !Validates(EventSchema, VersionZeroHangup)
  {
    HangupIsEvent(VersionZeroHangup);
  }

  /** `{ properties: { version: { const: 0 } } }` */
  const VersionZeroBranch: Schema :=
    Empty.(properties := map["version" := Empty.(constOf := Some(JNumber(0)))])

  const IntendedEventSchema: Schema := EventSchema.(anyOf := [VersionZeroBranch, VersionOneBranch])

  lemma VersionZeroBranchAccepts(j: Json)
    ensures Validates(VersionZeroBranch, j) <==>
              (j.JObject? && "version" in j.fields ==> j.fields["version"] == JNumber(0))
  {
    if j.JObject? && "version" in j.fields {
      assert Validates(Empty.(constOf := Some(JNumber(0))), j.fields["version"]) <==> j.fields["version"] == JNumber(0);
    }
  }

  /** Either branch of the intended `anyOf`. */
  lemma IntendedBaseAccepts(j: Json)
    ensures Validates(EventBase.(anyOf := [VersionZeroBranch, VersionOneBranch]), j) <==>
              j.JObject?
              && ("version" in j.fields ==>
                    j.fields["version"] == JNumber(0) || (j.fields["version"] == JNumber(1) && "party_id" in j.fields))
  {
    VersionZeroBranchAccepts(j);
    VersionOneBranchAccepts(j);
  }

  /** The intended rule: `version` is 0, or it is 1 and `party_id` is present;
      a `party_id` that is present is a string or null. */
  lemma IntendedEventAcceptsExactly(j: Json)
    ensures Validates(IntendedEventSchema, j) <==>
              j.JObject? && StringField(j.fields, "call_id") && "version" in j.fields
              && ("party_id" in j.fields ==> j.fields["party_id"].JString? || j.fields["party_id"].JNull?)
              && (j.fields["version"] == JNumber(0) || (j.fields["version"] == JNumber(1) && "party_id" in j.fields))
  {
    var base := EventBase.(anyOf := [VersionZeroBranch, VersionOneBranch]);
    assert IntendedEventSchema == WithEventProperties(base).(id := EventSchema.id);
    IdIrrelevant(WithEventProperties(base), EventSchema.id, j);
    EventPropertiesAccept(base, j);
    IntendedBaseAccepts(j);
  }

  lemma IntendedAcceptsVersionZero()
    ensures Validates(IntendedEventSchema, VersionZeroHangup)
  {
    IntendedEventAcceptsExactly(VersionZeroHangup);
  }
}
