/** The gop packet: a character option switched on or off
    (BasicPacketHandler.cs:73-169). Five options are stored inverted: the
    client sends "active" meaning the feature is allowed, the character
    stores whether it is blocked. */
module Options {

  datatype CharacterOption =
    | BuffBlocked
    | EmoticonsBlocked
    | ExchangeBlocked
    | FriendRequestBlocked
    | GroupRequestBlocked
    | HeroChatBlocked
    | HpBlocked
    | MinilandInviteBlocked
    | MouseAimLock
    | QuickGetUp
    | WhisperBlocked
    | FamilyRequestBlocked
    | GroupSharing
    | OtherOption   // a value the switch has no case for

  /** The flags the handler stores directly on the character. */
  predicate IsFlag(opt: CharacterOption)
  {
    !opt.GroupSharing? && !opt.OtherOption?
  }

  /** The options stored as the negation of the client's choice. */
  predicate Inverted(opt: CharacterOption)
  {
    opt.ExchangeBlocked? || opt.FriendRequestBlocked? || opt.GroupRequestBlocked?
    || opt.WhisperBlocked? || opt.FamilyRequestBlocked?
  }

  /** The value stored for the client's choice. */
  function StoredFlag(opt: CharacterOption, isActive: bool): (stored: bool)
  {
    if Inverted(opt) then !isActive else isActive
  }

  /** What the client's switch shows for a stored value. */
  function ClientSwitch(opt: CharacterOption, stored: bool): (isActive: bool)
  {
    if Inverted(opt) then !stored else stored
  }

  /** The client reads back exactly the choice it sent, and a stored value
      comes from exactly one choice. */
  lemma StoredFlagRoundTrip(opt: CharacterOption, isActive: bool, stored: bool)
    ensures ClientSwitch(opt, StoredFlag(opt, isActive)) == isActive
    ensures StoredFlag(opt, ClientSwitch(opt, stored)) == stored
    ensures StoredFlag(opt, isActive) == StoredFlag(opt, !isActive) ==> false
  {
  }

  /** The message key confirming the new value of a flag. */
  function FlagMessage(opt: CharacterOption, stored: bool): (key: string)
    requires IsFlag(opt)
    ensures key != ""
  {
    match opt
    case BuffBlocked => if stored then "BUFF_BLOCKED" else "BUFF_UNLOCKED"
    case EmoticonsBlocked => if stored then "EMO_BLOCKED" else "EMO_UNLOCKED"
    case ExchangeBlocked => if stored then "EXCHANGE_BLOCKED" else "EXCHANGE_UNLOCKED"
    case FriendRequestBlocked => if stored then "FRIEND_REQ_BLOCKED" else "FRIEND_REQ_UNLOCKED"
    case GroupRequestBlocked => if stored then "GROUP_REQ_BLOCKED" else "GROUP_REQ_UNLOCKED"
    case HeroChatBlocked => if stored then "HERO_CHAT_BLOCKED" else "HERO_CHAT_UNLOCKED"
    case HpBlocked => if stored then "HP_BLOCKED" else "HP_UNLOCKED"
    case MinilandInviteBlocked => if stored then "MINI_INV_BLOCKED" else "MINI_INV_UNLOCKED"
    case MouseAimLock => if stored then "MOUSE_LOCKED" else "MOUSE_UNLOCKED"
    case QuickGetUp => if stored then "QUICK_GET_UP_ENABLED" else "QUICK_GET_UP_DISABLED"
    case WhisperBlocked => if stored then "WHISPER_BLOCKED" else "WHISPER_UNLOCKED"
    case FamilyRequestBlocked => if stored then "FAMILY_REQ_LOCKED" else "FAMILY_REQ_UNLOCKED"
  }

  /** The confirmation names both the option and its new value: no two
      (option, value) pairs share a message key. */
  lemma FlagMessageIdentifies(a: CharacterOption, x: bool, b: CharacterOption, y: bool)
    requires IsFlag(a) && IsFlag(b)
    ensures FlagMessage(a, x) == FlagMessage(b, y) <==> a == b && x == y
  {
  }

  /** The sharing mode a group master chooses: 0 shares by order, 1 shares. */
  function SharingMode(isActive: bool): (mode: int)
    ensures mode == 0 || mode == 1
    ensures isActive <==> mode == 0
  {
    if isActive then 0 else 1
  }

  /** The message the group receives for a sharing mode. */
  function SharingMessage(isActive: bool): string
  {
    if isActive then "SHARING_BY_ORDER" else "SHARING"
  }
}
