/**
 * The two permission guards: each lets a command through or throws an
 * InteractionError naming what is missing. A permission is a flag name and a
 * permission bitfield is the set of flags it holds; `has` is set inclusion.
 */
module PermissionGuards {
  import opened Wrappers
  import opened Ascii
  import opened InteractionErrors

  type Permission = string

  const ManageGuild: Permission := "ManageGuild"

  /** The interaction's channel: missing, a channel outside a guild, or a guild channel. */
  datatype ChannelKind = NoChannel | OtherChannel | InGuildChannel

  /**
   * What the guards read of an interaction that is a BaseInteraction.
   * `botPermissions` is `channel.permissionsFor(botMember)` and
   * `memberPermissions` is `interaction.memberPermissions`; `None` is null.
   */
  datatype GuardInteraction = GuardInteraction(
    inGuild: bool,
    channel: ChannelKind,
    botMemberCached: bool,
    botPermissions: Option<set<Permission>>,
    memberPermissions: Option<set<Permission>>)

  /** `canActivate` never returns false: it lets the command run or throws. */
  datatype Verdict = Allow | Deny(error: InteractionError)

  function AsSet(required: seq<Permission>): set<Permission> {
    set p | p in required
  }

  /** `permissions.has(required)`. */
  predicate Has(granted: set<Permission>, required: seq<Permission>) {
    AsSet(required) <= granted
  }

  /**
   * `permissions.missing(required)`: the required flags not granted, in the
   * order `flags` lists every flag of the platform.
   */
  function Missing(flags: seq<Permission>, required: seq<Permission>, granted: set<Permission>): (m: seq<Permission>)
    ensures forall p :: p in m <==> p in flags && p in required && p !in granted
    ensures |m| <= |flags|
  {
    if flags == [] then []
    else
      var rest := Missing(flags[1..], required, granted);
      if flags[0] in required && flags[0] !in granted then [flags[0]] + rest else rest
  }

  /**
   * `missing` goes through the flags in order: the result is `flags` filtered
   * to the required flags not granted, without reordering.
   */
  lemma {:induction false} MissingConcat(a: seq<Permission>, b: seq<Permission>, required: seq<Permission>, granted: set<Permission>)
    ensures Missing(a + b, required, granted) == Missing(a, required, granted) + Missing(b, required, granted)
  {
    if a != [] {
      assert (a + b)[1..] == a[1..] + b;
      MissingConcat(a[1..], b, required, granted);
    } else {
      assert a + b == b;
    }
  }

  /** A single flag is listed exactly when it is required and not granted. */
  lemma MissingOne(p: Permission, required: seq<Permission>, granted: set<Permission>)
    ensures Missing([p], required, granted) == if p in required && p !in granted then [p] else []
  {
    assert [p][1..] == [];
  }

  function Backticked(p: Permission): string {
    "`" + p + "`"
  }

  /** `missing.map((perm) => `\`${perm}\``).join(", ")`. */
  function MissingList(missing: seq<Permission>): (s: string)
    ensures s == "" <==> missing == []
  {
    Join(seq(|missing|, i requires 0 <= i < |missing| => Backticked(missing[i])), ", ")
  }

  const BotDenied := "\U{274C} I don't have the required permissions to do that."
  const MemberDenied := "\U{274C} You don't have the required permissions to do that."
  const MissingHeading := "\nMissing permissions: "

  /**
   * The denial message: the fixed text, followed by the list of what is missing
   * when the member may manage the guild and the list is not empty.
   */
  function DenialMessage(fixed: string, managesGuild: bool, missing: string): (msg: string)
    ensures fixed <= msg
    ensures managesGuild && missing != "" ==> msg == fixed + MissingHeading + missing
    ensures !(managesGuild && missing != "") ==> msg == fixed
  {
    if managesGuild && missing != "" then fixed + MissingHeading + missing else fixed
  }

  /** Whether the guard reaches its permission check at all. */
  predicate BotCheckApplies(required: Option<seq<Permission>>, interaction: Option<GuardInteraction>) {
    required.Some? && interaction.Some? && interaction.value.inGuild
    && interaction.value.channel == InGuildChannel && interaction.value.botMemberCached
  }

  /**
   * `RequireBotPermissionGuard.canActivate`. Denies exactly when the check
   * applies and the bot's channel permissions are null or lack a required
   * flag; the missing flags are listed only to a member holding ManageGuild.
   */
  function BotGuard(flags: seq<Permission>, required: Option<seq<Permission>>, interaction: Option<GuardInteraction>): (v: Verdict)
    ensures v.Deny? <==>
              BotCheckApplies(required, interaction)
              && (interaction.value.botPermissions.None? || !Has(interaction.value.botPermissions.value, required.value))
    ensures v.Deny? ==> v.error.internalMessage.None? && BotDenied <= v.error.userMessage
    ensures v.Deny? && (interaction.value.memberPermissions.None? || ManageGuild !in interaction.value.memberPermissions.value) ==>
              v.error.userMessage == BotDenied
    ensures v.Deny? && interaction.value.botPermissions.None? ==> v.error.userMessage == BotDenied
  {
    if required.None? then Allow
    else if interaction.None? || !interaction.value.inGuild then Allow
    else if interaction.value.channel != InGuildChannel then Allow
    else if !interaction.value.botMemberCached then Allow
    else
      var i := interaction.value;
      if i.botPermissions.None? || !Has(i.botPermissions.value, required.value) then
        var managesGuild := i.memberPermissions.Some? && ManageGuild in i.memberPermissions.value;
        var missing := if managesGuild && i.botPermissions.Some?
                       then MissingList(Missing(flags, required.value, i.botPermissions.value)) else "";
        Deny(NewInteractionError(DenialMessage(BotDenied, managesGuild, missing), None))
      else Allow
  }

  /** Whether the member guard reaches its permission check at all. */
  predicate MemberCheckApplies(required: Option<seq<Permission>>, interaction: Option<GuardInteraction>) {
    required.Some? && required.value != [] && interaction.Some? && interaction.value.inGuild
    && interaction.value.channel == InGuildChannel
  }

  /**
   * `RequireMemberPermissionGuard.canActivate`. Denies exactly when the check
   * applies and the member's permissions are null or lack a required flag; a
   * member holding ManageGuild is told what is missing.
   */
  function MemberGuard(flags: seq<Permission>, required: Option<seq<Permission>>, interaction: Option<GuardInteraction>): (v: Verdict)
    ensures v.Deny? <==>
              MemberCheckApplies(required, interaction)
              && (interaction.value.memberPermissions.None? || !Has(interaction.value.memberPermissions.value, required.value))
    ensures v.Deny? ==> v.error.internalMessage.None? && MemberDenied <= v.error.userMessage
    ensures v.Deny? && (interaction.value.memberPermissions.None? || ManageGuild !in interaction.value.memberPermissions.value) ==>
              v.error.userMessage == MemberDenied
  {
    if required.None? || required.value == [] then Allow
    else if interaction.None? || !interaction.value.inGuild then Allow
    else if interaction.value.channel != InGuildChannel then Allow
    else
      var permissions := interaction.value.memberPermissions;
      if permissions.None? || !Has(permissions.value, required.value) then
        var managesGuild := permissions.Some? && ManageGuild in permissions.value;
        var missing := if managesGuild then MissingList(Missing(flags, required.value, permissions.value)) else "";
        Deny(NewInteractionError(DenialMessage(MemberDenied, managesGuild, missing), None))
      else Allow
  }

  /**
   * When every flag is listed in `flags`, a denied member holding ManageGuild
   * is always told which flags are missing: the list is exactly the required
   * flags they lack, each in backticks.
   */
  lemma MemberDenialListsMissing(flags: seq<Permission>, required: seq<Permission>, i: GuardInteraction)
    requires AsSet(required) <= AsSet(flags)
    requires required != [] && i.inGuild && i.channel == InGuildChannel
    requires i.memberPermissions.Some? && ManageGuild in i.memberPermissions.value
    requires !Has(i.memberPermissions.value, required)
    ensures var m := Missing(flags, required, i.memberPermissions.value);
            && m != []
            && (forall p :: p in m <==> p in required && p !in i.memberPermissions.value)
            && MemberGuard(flags, Some(required), Some(i)).error.userMessage == MemberDenied + MissingHeading + MissingList(m)
  {
    var granted := i.memberPermissions.value;
    var p :| p in required && p !in granted;
    assert p in AsSet(required);
    var m := Missing(flags, required, granted);
    assert p in m;
    forall q | q in required
      ensures q in flags
    {
      assert q in AsSet(required);
    }
    var v := MemberGuard(flags, Some(required), Some(i));
    assert v == Deny(NewInteractionError(DenialMessage(MemberDenied, true, MissingList(m)), None));
  }

  /** The same for the bot guard, when the bot's own permissions are known. */
  lemma BotDenialListsMissing(flags: seq<Permission>, required: seq<Permission>, i: GuardInteraction)
    requires AsSet(required) <= AsSet(flags)
    requires i.inGuild && i.channel == InGuildChannel && i.botMemberCached
    requires i.botPermissions.Some? && !Has(i.botPermissions.value, required)
    requires i.memberPermissions.Some? && ManageGuild in i.memberPermissions.value
    ensures var m := Missing(flags, required, i.botPermissions.value);
            && m != []
            && BotGuard(flags, Some(required), Some(i)).error.userMessage == BotDenied + MissingHeading + MissingList(m)
  {
    var granted := i.botPermissions.value;
    var p :| p in required && p !in granted;
    assert p in AsSet(required);
    var m := Missing(flags, required, granted);
    assert p in m;
    var v := BotGuard(flags, Some(required), Some(i));
    assert v == Deny(NewInteractionError(DenialMessage(BotDenied, true, MissingList(m)), None));
  }

  /** Each listed flag appears in the message wrapped in backticks. */
  lemma MissingListMentions(missing: seq<Permission>, k: nat)
    requires k < |missing|
    ensures Contains(MissingList(missing), Backticked(missing[k]))
  {
    var parts := seq(|missing|, i requires 0 <= i < |missing| => Backticked(missing[i]));
    JoinContainsPart(parts, ", ", k);
  }
}
