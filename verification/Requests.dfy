/** Wire values shared by the client runtime, the signer and the offline
    verifier. Instants are nanoseconds since the epoch. */
module Requests {
  import opened Common

  type Instant = int

  datatype OptionKind = Approve | ApproveWithText | Reject | RejectWithText | Dismiss | Open | Custom

  datatype RequestStatus = Pending | Resolved | Expired | Cancelled

  datatype DecisionResolution = Shared | PerUser

  datatype CardField = CardField(labelText: string, value: string, style: Option<string>)

  datatype CardLink = CardLink(labelText: string, url: string)

  datatype RequestOption = RequestOption(
    id: string,
    labelText: string,
    kind: OptionKind,
    style: string,
    requiresText: bool,
    textPlaceholder: Option<string>,
    destructive: bool,
    foreground: bool)

  datatype RequestNotification = RequestNotification(redact: bool, title: Option<string>, body: Option<string>)

  datatype AnswerValue =
    | ChoiceValue(choiceId: string)
    | NumberValue(decimal: string)
    | DateValue(date: string)
    | DateTimeValue(instant: string)

  datatype AnswerChoice = AnswerChoice(id: string, labelText: string)

  datatype AnswerField =
    | ChoiceField(labelText: string, choices: seq<AnswerChoice>, default: AnswerValue)
    | NumberField(labelText: string, default: AnswerValue)
    | DateField(labelText: string, default: AnswerValue)
    | DateTimeField(labelText: string, default: AnswerValue)

  datatype SigningContext = SigningContext(version: string, recipientsCommitment: string, requestDigest: string)

  datatype SignatureRecord = SignatureRecord(
    payloadVersion: Option<string>,
    keyId: string,
    algorithm: string,
    nonce: string,
    signedAt: string,
    requestDigest: string,
    signingPayload: string,
    signature: string)

  datatype Decision = Decision(
    answerValue: Option<AnswerValue>,
    requestId: string,
    optionId: string,
    optionKind: OptionKind,
    optionLabel: string,
    text: Option<string>,
    actorUserId: Option<string>,
    actorDeviceId: Option<string>,
    signature: Option<SignatureRecord>,
    resolvedAt: Instant)

  datatype UserDecision = UserDecision(userId: string, decision: Decision)

  datatype Request = Request(
    answerField: Option<AnswerField>,
    id: string,
    requestId: string,
    channelId: string,
    recipients: seq<string>,
    decisionResolution: DecisionResolution,
    title: string,
    summary: string,
    bodyMarkdown: string,
    fields: seq<CardField>,
    links: seq<CardLink>,
    imageUrl: Option<string>,
    notification: RequestNotification,
    dedupeKey: Option<string>,
    expiresAt: Option<Instant>,
    status: RequestStatus,
    createdAt: Instant,
    updatedAt: Instant,
    resolvedAt: Option<Instant>,
    decision: Option<Decision>,
    decisions: seq<UserDecision>,
    callbackUrl: Option<string>,
    options: seq<RequestOption>,
    requestDigest: Option<string>,
    signing: Option<SigningContext>)

  datatype Channel = Channel(id: string, name: string, emoji: string, subscribed: bool, createdAt: Instant)
}
