/**
 * The moderation path of bot.py: the privilege check `is_admin_member`, the
 * threshold rule, and `on_message`, which a `Bot` runs as a sequence of
 * effects recorded in `trace`.
 *
 * Discord and the classifier are not modelled: a `World` value says what each
 * call answers (the classifier's prediction for a cleaned text, whether the
 * delete, the warning DM and the moderator notice go through, and the clock).
 * The two stores the path writes are the objects `log` (utils/logger.py) and
 * `reports` (utils/report_generator.py).
 */
module Bot {
  import opened Wrappers
  import opened Events
  import Preprocess
  import Logger
  import ReportGenerator

  // ---------------------------------------------------------------------------
  // `is_admin_member(member, channel)`

  /** The four flags of `channel.permissions_for(member)` the check reads. */
  datatype Permissions = Permissions(manageMessages: bool, kickMembers: bool, banMembers: bool, administrator: bool)

  datatype Capability = ManageMessages | KickMembers | BanMembers | Administrator

  predicate Grants(p: Permissions, c: Capability) {
    match c
    case ManageMessages => p.manageMessages
    case KickMembers => p.kickMembers
    case BanMembers => p.banMembers
    case Administrator => p.administrator
  }

  /** `perms` is `None` when `permissions_for` raises; the check then answers false. */
  function IsAdminMember(perms: Option<Permissions>): bool {
    match perms
    case None => false
    case Some(p) => p.manageMessages || p.kickMembers || p.banMembers || p.administrator
  }

  /** Privileged means holding at least one of the four capabilities; a failed lookup never is. */
  lemma IsAdminMemberIff(perms: Option<Permissions>)
    ensures IsAdminMember(perms) <==> perms.Some? && exists c :: Grants(perms.value, c)
  {
    if perms.Some? {
      var p := perms.value;
      if p.manageMessages {
        assert Grants(p, ManageMessages);
      } else if p.kickMembers {
        assert Grants(p, KickMembers);
      } else if p.banMembers {
        assert Grants(p, BanMembers);
      } else if p.administrator {
        assert Grants(p, Administrator);
      }
    }
  }

  /** Granting more never takes privilege away. */
  lemma IsAdminMemberMonotone(p: Permissions, q: Permissions)
    requires forall c :: Grants(p, c) ==> Grants(q, c)
    ensures IsAdminMember(Some(p)) ==> IsAdminMember(Some(q))
  {
    IsAdminMemberIff(Some(p));
    IsAdminMemberIff(Some(q));
  }

  // ---------------------------------------------------------------------------
  // The threshold rule of `on_message`

  /** DELETE_THRESHOLD and FLAG_THRESHOLD; config.py fixes no order between them. */
  datatype Thresholds = Thresholds(delete: real, flag: real)

  datatype Action = Allow | Flag | Delete

  /** `if prob >= DELETE_THRESHOLD and not is_admin: ... elif prob >= FLAG_THRESHOLD: ...` */
  function Decide(prob: real, isAdmin: bool, t: Thresholds): Action {
    if prob >= t.delete && !isAdmin then Delete
    else if prob >= t.flag then Flag
    else Allow
  }

  /** The branch precedence: each action exactly under its condition. */
  lemma DecidePrecedence(prob: real, isAdmin: bool, t: Thresholds)
    ensures Decide(prob, isAdmin, t) == Delete <==> !isAdmin && prob >= t.delete
    ensures Decide(prob, isAdmin, t) == Flag <==> (isAdmin || prob < t.delete) && prob >= t.flag
    ensures Decide(prob, isAdmin, t) == Allow <==> (isAdmin || prob < t.delete) && prob < t.flag
  {
  }

  function Severity(a: Action): nat {
    match a
    case Allow => 0
    case Flag => 1
    case Delete => 2
  }

  /**
   * A more confident prediction is never treated more leniently, whatever the
   * thresholds, and a privileged author never more harshly than another.
   */
  lemma DecideMonotone(p1: real, p2: real, isAdmin: bool, t: Thresholds)
    requires p1 <= p2
    ensures Severity(Decide(p1, isAdmin, t)) <= Severity(Decide(p2, isAdmin, t))
    ensures Severity(Decide(p1, true, t)) <= Severity(Decide(p1, false, t))
  {
  }

  /** With thresholds 0.9 and 0.6: 0.95 deletes (or flags a moderator), 0.75 flags, 0.3 does nothing. */
  lemma DecideExamples()
    ensures var t := Thresholds(0.9, 0.6);
      && Decide(0.95, false, t) == Delete
      && Decide(0.95, true, t) == Flag
      && Decide(0.75, false, t) == Flag
      && Decide(0.3, false, t) == Allow
  {
  }

  // ---------------------------------------------------------------------------
  // One message

  /** The parts of a `discord.Message` that `on_message` reads. */
  datatype Message = Message(
    fromThisBot: bool,              // message.author == bot.user
    authorIsBot: bool,              // message.author.bot
    inDm: bool,                     // the channel is a DMChannel
    content: string,
    author: string,                 // str(message.author)
    authorId: int,
    guild: string,
    channel: string,
    perms: Option<Permissions>)     // the author's permissions in the channel, None when the lookup raises

  datatype Prediction = Prediction(classLabel: string, prob: real)

  /** What the outside world answers while one message is handled. */
  datatype World = World(
    thresholds: Thresholds,
    classify: string -> Option<Prediction>,   // the trained model on a cleaned text; None when `predict` raises
    deleteOk: bool,                           // `message.delete()` succeeds
    warnOk: bool,                             // the warning DM is delivered
    notifyOk: bool,                           // `notify_moderators` does not raise
    now: string,                              // the clock inside `log_event`
    reportNow: string,                        // the clock inside `add_to_report`
    fmt: string -> Option<string>)            // the dashboard's timestamp formatting

  /** `predict(text)` of model/predict.py: the model applied to `clean_text(text)`. */
  function Predict(text: string, classify: string -> Option<Prediction>): Option<Prediction> {
    classify(Preprocess.CleanText(Some(text)))
  }

  /** How far `on_message` gets before its moderation branch. */
  datatype Stage = Ignored | Blank | PredictFailed | Decided(prediction: Prediction, action: Action)

  /** `not text.strip()`. */
  predicate IsBlank(text: string) {
    Preprocess.Strip(text) == ""
  }

  /**
   * The stage reached, given whether the text is blank and what `predict`
   * answered for it; the path properties below hold for any such answers.
   */
  function StageFrom(m: Message, w: World, blank: bool, prediction: Option<Prediction>): Stage {
    if m.fromThisBot || m.authorIsBot || m.inDm then Ignored
    else if blank then Blank
    else
      match prediction
      case None => PredictFailed
      case Some(p) => Decided(p, Decide(p.prob, IsAdminMember(m.perms), w.thresholds))
  }

  function StageOf(m: Message, w: World): Stage {
    StageFrom(m, w, IsBlank(m.content), Predict(m.content, w.classify))
  }

  /** What `on_message` does, in order. */
  datatype Effect =
    | PredictionFailed                          // the classifier raised; nothing else happens
    | DeleteMessage(deleted: bool)
    | WarnAuthor(delivered: bool)
    | NotifyModerators(action: Action, raised: bool)
    | LogEvent(fields: EventFields)
    | AddToReport(raised: bool)
    | ProcessCommands
    | Escaped                                   // an exception leaves `on_message`

  /** "guild/channel", as logged and reported. */
  function ChannelPath(m: Message): string {
    m.guild + "/" + m.channel
  }

  /** The "action" value logged for a moderation action. */
  function ActionName(a: Action): string {
    match a
    case Allow => "none"
    case Flag => "flagged"
    case Delete => "deleted"
  }

  function LoggedFields(m: Message, p: Prediction, action: Action): EventFields {
    EventFields(Some(ActionName(action)), Some(m.author), Some(m.authorId), Some(ChannelPath(m)),
                Some(p.classLabel), Some(p.prob), Some(m.content))
  }

  /**
   * The effects of `on_message(m)` once it has reached `stage`. `reportRaises`
   * says whether `add_to_report` raises on the report file as it is. On the
   * delete path everything after the delete sits in one `try` whose handler
   * only logs; on the flag path nothing is caught.
   */
  function EffectsOf(stage: Stage, m: Message, w: World, reportRaises: bool): seq<Effect> {
    match stage
    case Ignored => []
    case Blank => [ProcessCommands]
    case PredictFailed => [PredictionFailed, ProcessCommands]
    case Decided(p, action) =>
      match action
      case Allow => [ProcessCommands]
      case Delete =>
        if !w.deleteOk then [DeleteMessage(false), ProcessCommands]
        else if !w.notifyOk then
          [DeleteMessage(true), WarnAuthor(w.warnOk), NotifyModerators(Delete, true), ProcessCommands]
        else
          [DeleteMessage(true), WarnAuthor(w.warnOk), NotifyModerators(Delete, false),
           LogEvent(LoggedFields(m, p, Delete)), AddToReport(reportRaises), ProcessCommands]
      case Flag =>
        if !w.notifyOk then [NotifyModerators(Flag, true), Escaped]
        else
          [NotifyModerators(Flag, false), LogEvent(LoggedFields(m, p, Flag)), AddToReport(reportRaises),
           if reportRaises then Escaped else ProcessCommands]
  }

  /** The effects of `on_message(m)`. */
  function Effects(m: Message, w: World, reportRaises: bool): seq<Effect> {
    EffectsOf(StageOf(m, w), m, w, reportRaises)
  }

  /** The fields `log_event` receives, when the path reaches it. */
  function LogCallOf(stage: Stage, m: Message, w: World): Option<EventFields> {
    match stage
    case Decided(p, Delete) => if w.deleteOk && w.notifyOk then Some(LoggedFields(m, p, Delete)) else None
    case Decided(p, Flag) => if w.notifyOk then Some(LoggedFields(m, p, Flag)) else None
    case _ => None
  }

  /** The entry `add_to_report` is called with, when the path reaches it. */
  function ReportCallOf(stage: Stage, m: Message, w: World): Option<ReportGenerator.ReportEntry> {
    match LogCallOf(stage, m, w)
    case None => None
    case Some(_) =>
      var p := stage.prediction;
      Some(ReportGenerator.NewEntry(m.content, m.author, ChannelPath(m), p.classLabel, p.prob, w.reportNow))
  }

  function LogCall(m: Message, w: World): Option<EventFields> {
    LogCallOf(StageOf(m, w), m, w)
  }

  function ReportCall(m: Message, w: World): Option<ReportGenerator.ReportEntry> {
    ReportCallOf(StageOf(m, w), m, w)
  }

  // ---------------------------------------------------------------------------
  // Properties of the path. They hold whatever the blank test and the
  // classifier answer, so they are stated for any such answers; `Effects` is
  // the case of the answers `on_message` actually gets.

  /** Messages from bots and in DMs cause nothing at all, not even command processing. */
  lemma IgnoredHasNoEffects(m: Message, w: World, blank: bool, prediction: Option<Prediction>, reportRaises: bool)
    requires m.fromThisBot || m.authorIsBot || m.inDm
    ensures EffectsOf(StageFrom(m, w, blank, prediction), m, w, reportRaises) == []
  {
  }

  /** Blank text and a failed prediction skip moderation but still process commands once. */
  lemma SkippedModeration(m: Message, w: World, blank: bool, prediction: Option<Prediction>, reportRaises: bool)
    requires !(m.fromThisBot || m.authorIsBot || m.inDm)
    ensures blank ==> EffectsOf(StageFrom(m, w, blank, prediction), m, w, reportRaises) == [ProcessCommands]
    ensures !blank && prediction.None? ==>
      EffectsOf(StageFrom(m, w, blank, prediction), m, w, reportRaises) == [PredictionFailed, ProcessCommands]
  {
  }

  /** A privileged author's message is never deleted. */
  lemma PrivilegedNeverDeleted(m: Message, w: World, blank: bool, prediction: Option<Prediction>, reportRaises: bool)
    requires IsAdminMember(m.perms)
    ensures forall e :: e in EffectsOf(StageFrom(m, w, blank, prediction), m, w, reportRaises) ==> !e.DeleteMessage?
  {
  }

  /**
   * Every logged event comes after a delete that went through or after the
   * moderators were told of a flag, and it records that same action.
   */
  lemma LogFollowsAction(stage: Stage, m: Message, w: World, reportRaises: bool, i: nat)
    requires i < |EffectsOf(stage, m, w, reportRaises)| && EffectsOf(stage, m, w, reportRaises)[i].LogEvent?
    ensures var es := EffectsOf(stage, m, w, reportRaises);
      && stage.Decided?
      && es[i].fields == LoggedFields(m, stage.prediction, stage.action)
      && i > 0
      && (stage.action == Delete ==> es[0] == DeleteMessage(true) && NotifyModerators(Delete, false) in es[..i])
      && (stage.action == Flag ==> es[0] == NotifyModerators(Flag, false))
  {
    var es := EffectsOf(stage, m, w, reportRaises);
    if stage.Decided? && stage.action == Delete {
      assert es[..i][2] == NotifyModerators(Delete, false);
    }
  }

  /** A failed delete ends moderation at once; commands are still processed. */
  lemma FailedDeleteStops(stage: Stage, m: Message, w: World, reportRaises: bool)
    requires stage.Decided? && stage.action == Delete && !w.deleteOk
    ensures EffectsOf(stage, m, w, reportRaises) == [DeleteMessage(false), ProcessCommands]
  {
  }

  /** Whether the warning DM arrives changes nothing but its own entry in the trace. */
  lemma WarningFailureSwallowed(m: Message, w: World, blank: bool, prediction: Option<Prediction>, reportRaises: bool)
    ensures var sent := EffectsOf(StageFrom(m, w.(warnOk := true), blank, prediction), m, w.(warnOk := true), reportRaises);
      var lost := EffectsOf(StageFrom(m, w.(warnOk := false), blank, prediction), m, w.(warnOk := false), reportRaises);
      |sent| == |lost| && forall i :: 0 <= i < |sent| && sent[i] != lost[i] ==> sent[i] == WarnAuthor(true) && lost[i] == WarnAuthor(false)
  {
  }

  /**
   * On the flag path a failing notice or report escapes `on_message`: commands
   * are not processed, while on the delete path they always are.
   */
  lemma FlagPathEscapes(stage: Stage, m: Message, w: World, reportRaises: bool)
    requires stage.Decided?
    ensures var es := EffectsOf(stage, m, w, reportRaises);
      stage.action == Flag && (!w.notifyOk || reportRaises) ==> ProcessCommands !in es && es[|es| - 1] == Escaped
    ensures var es := EffectsOf(stage, m, w, reportRaises);
      stage.action == Delete ==> es[|es| - 1] == ProcessCommands
  {
  }

  /** Every handled message ends in exactly one of command processing or an escaping exception. */
  lemma EndsOnce(stage: Stage, m: Message, w: World, reportRaises: bool)
    requires !stage.Ignored?
    ensures var es := EffectsOf(stage, m, w, reportRaises);
      && es != []
      && (es[|es| - 1] == ProcessCommands || es[|es| - 1] == Escaped)
      && forall i :: 0 <= i < |es| - 1 ==> es[i] != ProcessCommands && es[i] != Escaped
  {
  }

  /** The log and report calls happen exactly when the trace says so. */
  lemma CallsMatchTrace(stage: Stage, m: Message, w: World, reportRaises: bool)
    ensures forall f :: LogEvent(f) in EffectsOf(stage, m, w, reportRaises) <==> LogCallOf(stage, m, w) == Some(f)
    ensures (exists r :: AddToReport(r) in EffectsOf(stage, m, w, reportRaises)) <==> ReportCallOf(stage, m, w).Some?
  {
    var es := EffectsOf(stage, m, w, reportRaises);
    if LogCallOf(stage, m, w).Some? {
      assert AddToReport(reportRaises) in es;
    }
  }

  /**
   * Two messages from the same author that read the same once cleaned get the
   * same prediction and the same action.
   */
  lemma SameCleanTextSameAction(m1: Message, m2: Message, w: World)
    requires m1.(content := m2.content) == m2
    requires !IsBlank(m1.content) && !IsBlank(m2.content)
    requires Preprocess.CleanText(Some(m1.content)) == Preprocess.CleanText(Some(m2.content))
    ensures StageOf(m1, w) == StageOf(m2, w)
  {
    assert Predict(m1.content, w.classify) == Predict(m2.content, w.classify);
  }

  // ---------------------------------------------------------------------------
  // The bot

  class Bot {
    /** Everything `on_message` has done so far. */
    var trace: seq<Effect>
    /** The event log and dashboard of utils/logger.py. */
    const log: Logger.EventLog
    /** The report list of utils/report_generator.py. */
    const reports: ReportGenerator.ReportStore

    constructor (log: Logger.EventLog, reports: ReportGenerator.ReportStore)
      ensures this.log == log && this.reports == reports && trace == []
    {
      this.log := log;
      this.reports := reports;
      trace := [];
    }

    /** `on_message(m)`. */
    method OnMessage(m: Message, w: World)
      modifies this, log, reports
      ensures trace == old(trace) + Effects(m, w, ReportGenerator.Raises(old(reports.file)))
      ensures LogCall(m, w).None? ==> log.file == old(log.file) && log.page == old(log.page)
      ensures LogCall(m, w).Some? ==>
        && log.file == Logger.AfterAppend(old(log.file), MakeEntry(w.now, LogCall(m, w).value))
        && log.page == Logger.AfterRender(old(log.page), log.file, w.fmt)
      ensures ReportCall(m, w).None? || ReportGenerator.Raises(old(reports.file)) ==> reports.file == old(reports.file)
      ensures ReportCall(m, w).Some? && !ReportGenerator.Raises(old(reports.file)) ==>
        reports.file == ReportGenerator.Appended(old(reports.file), ReportCall(m, w).value)
    {
      var stage: Stage;
      if m.fromThisBot || m.authorIsBot || m.inDm {
        stage := Ignored;
      } else if IsBlank(m.content) {
        stage := Blank;
      } else {
        var prediction := Predict(m.content, w.classify);
        if prediction.None? {
          stage := PredictFailed;
        } else {
          var p := prediction.value;
          stage := Decided(p, Decide(p.prob, IsAdminMember(m.perms), w.thresholds));
        }
      }
      assert stage == StageOf(m, w);
      Act(m, w, stage);
    }

    /**
     * What `on_message(m)` does once it knows how far it got: nothing for an
     * ignored message, command processing for a blank text, the failure log
     * for a failed prediction, and otherwise the two moderation branches.
     */
    method Act(m: Message, w: World, stage: Stage)
      modifies this, log, reports
      ensures trace == old(trace) + EffectsOf(stage, m, w, ReportGenerator.Raises(old(reports.file)))
      ensures LogCallOf(stage, m, w).None? ==> log.file == old(log.file) && log.page == old(log.page)
      ensures LogCallOf(stage, m, w).Some? ==>
        && log.file == Logger.AfterAppend(old(log.file), MakeEntry(w.now, LogCallOf(stage, m, w).value))
        && log.page == Logger.AfterRender(old(log.page), log.file, w.fmt)
      ensures ReportCallOf(stage, m, w).None? || ReportGenerator.Raises(old(reports.file)) ==> reports.file == old(reports.file)
      ensures ReportCallOf(stage, m, w).Some? && !ReportGenerator.Raises(old(reports.file)) ==>
        reports.file == ReportGenerator.Appended(old(reports.file), ReportCallOf(stage, m, w).value)
    {
      match stage
      case Ignored =>
      case Blank =>
        trace := trace + [ProcessCommands];
      case PredictFailed =>
        trace := trace + [PredictionFailed, ProcessCommands];
      case Decided(p, action) =>
        if action == Delete {
          DeleteBranch(m, w, p);
        } else if action == Flag {
          FlagBranch(m, w, p);
        } else {
          trace := trace + [ProcessCommands];
        }
    }

    /** The branch above the delete threshold. */
    method DeleteBranch(m: Message, w: World, p: Prediction)
      modifies this, log, reports
      ensures trace == old(trace) + EffectsOf(Decided(p, Delete), m, w, ReportGenerator.Raises(old(reports.file)))
      ensures LogCallOf(Decided(p, Delete), m, w).None? ==> log.file == old(log.file) && log.page == old(log.page)
      ensures LogCallOf(Decided(p, Delete), m, w).Some? ==>
        && log.file == Logger.AfterAppend(old(log.file), MakeEntry(w.now, LogCallOf(Decided(p, Delete), m, w).value))
        && log.page == Logger.AfterRender(old(log.page), log.file, w.fmt)
      ensures ReportCallOf(Decided(p, Delete), m, w).None? || ReportGenerator.Raises(old(reports.file)) ==>
        reports.file == old(reports.file)
      ensures ReportCallOf(Decided(p, Delete), m, w).Some? && !ReportGenerator.Raises(old(reports.file)) ==>
        reports.file == ReportGenerator.Appended(old(reports.file), ReportCallOf(Decided(p, Delete), m, w).value)
    {
      if !w.deleteOk {
        trace := trace + [DeleteMessage(false), ProcessCommands];
      } else if !w.notifyOk {
        trace := trace + [DeleteMessage(true), WarnAuthor(w.warnOk), NotifyModerators(Delete, true), ProcessCommands];
      } else {
        var raised := Record(m, w, p, Delete);
        trace := trace + [DeleteMessage(true), WarnAuthor(w.warnOk), NotifyModerators(Delete, false),
                          LogEvent(LoggedFields(m, p, Delete)), AddToReport(raised), ProcessCommands];
      }
    }

    /** The branch between the flag and the delete thresholds. */
    method FlagBranch(m: Message, w: World, p: Prediction)
      modifies this, log, reports
      ensures trace == old(trace) + EffectsOf(Decided(p, Flag), m, w, ReportGenerator.Raises(old(reports.file)))
      ensures LogCallOf(Decided(p, Flag), m, w).None? ==> log.file == old(log.file) && log.page == old(log.page)
      ensures LogCallOf(Decided(p, Flag), m, w).Some? ==>
        && log.file == Logger.AfterAppend(old(log.file), MakeEntry(w.now, LogCallOf(Decided(p, Flag), m, w).value))
        && log.page == Logger.AfterRender(old(log.page), log.file, w.fmt)
      ensures ReportCallOf(Decided(p, Flag), m, w).None? || ReportGenerator.Raises(old(reports.file)) ==>
        reports.file == old(reports.file)
      ensures ReportCallOf(Decided(p, Flag), m, w).Some? && !ReportGenerator.Raises(old(reports.file)) ==>
        reports.file == ReportGenerator.Appended(old(reports.file), ReportCallOf(Decided(p, Flag), m, w).value)
    {
      if !w.notifyOk {
        trace := trace + [NotifyModerators(Flag, true), Escaped];
      } else {
        var raised := Record(m, w, p, Flag);
        trace := trace + [NotifyModerators(Flag, false), LogEvent(LoggedFields(m, p, Flag)), AddToReport(raised),
                          if raised then Escaped else ProcessCommands];
      }
    }

    /**
     * The step both moderation branches share: `log_event` with the message's
     * fields, then `add_to_report`, whose exception `raised` reports.
     */
    method Record(m: Message, w: World, p: Prediction, action: Action) returns (raised: bool)
      modifies log, reports
      ensures raised == ReportGenerator.Raises(old(reports.file))
      ensures log.file == Logger.AfterAppend(old(log.file), MakeEntry(w.now, LoggedFields(m, p, action)))
      ensures log.page == Logger.AfterRender(old(log.page), log.file, w.fmt)
      ensures raised ==> reports.file == old(reports.file)
      ensures !raised ==> reports.file == ReportGenerator.Appended(old(reports.file),
        ReportGenerator.NewEntry(m.content, m.author, ChannelPath(m), p.classLabel, p.prob, w.reportNow))
    {
      log.LogEvent(LoggedFields(m, p, action), w.now, w.fmt);
      raised := reports.AddToReport(m.content, m.author, ChannelPath(m), p.classLabel, p.prob, w.reportNow);
    }
  }
}
