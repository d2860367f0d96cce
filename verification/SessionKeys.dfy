/** The session attributes of one shared session: helpers/session_keys.go, helpers/impersonation.go
    and the key of Goravel's own session guard. */
module SessionKeys {

  datatype Kind = GuardID | PasswordChangedAt | TwoFactorUserID | RememberIntent | SessionTrackingToken | Impersonator

  function GuardIDKey(guard: string): string { "auth_" + guard + "_id" }

  function PasswordChangedAtKey(guard: string): string { "authkit_" + guard + "_password_changed_at" }

  function TwoFactorUserIDKey(guard: string): string { "authkit_" + guard + "_two_factor_user_id" }

  function RememberIntentKey(guard: string): string { "authkit_" + guard + "_remember_intent" }

  function SessionTrackingTokenKey(guard: string): string { "authkit_" + guard + "_session_token" }

  function ImpersonatorKey(guard: string): string { "authkit_" + guard + "_impersonator" }

  function Key(kind: Kind, guard: string): string {
    match kind
    case GuardID => GuardIDKey(guard)
    case PasswordChangedAt => PasswordChangedAtKey(guard)
    case TwoFactorUserID => TwoFactorUserIDKey(guard)
    case RememberIntent => RememberIntentKey(guard)
    case SessionTrackingToken => SessionTrackingTokenKey(guard)
    case Impersonator => ImpersonatorKey(guard)
  }

  function Prefix(kind: Kind): string {
    if kind.GuardID? then "auth_" else "authkit_"
  }

  function Suffix(kind: Kind): string {
    match kind
    case GuardID => "_id"
    case PasswordChangedAt => "_password_changed_at"
    case TwoFactorUserID => "_two_factor_user_id"
    case RememberIntent => "_remember_intent"
    case SessionTrackingToken => "_session_token"
    case Impersonator => "_impersonator"
  }

  lemma SameSuffix(a: string, b: string, s: string, t: string)
    requires a + s == b + t && |s| >= 2 && |t| >= 2
    ensures s[|s| - 1] == t[|t| - 1] && s[|s| - 2] == t[|t| - 2]
  {
    var x, y := a + s, b + t;
    assert x[|x| - 1] == s[|s| - 1] && y[|y| - 1] == t[|t| - 1];
    assert x[|x| - 2] == s[|s| - 2] && y[|y| - 2] == t[|t| - 2];
  }

  lemma SameMiddle(p: string, g: string, h: string, s: string)
    requires p + g + s == p + h + s
    ensures g == h
  {
    assert |g| == |h|;
    assert (p + g + s)[|p|..|p| + |g|] == g;
    assert (p + h + s)[|p|..|p| + |h|] == h;
  }

  lemma KeyParts(kind: Kind, guard: string)
    ensures Key(kind, guard) == Prefix(kind) + guard + Suffix(kind)
  {
  }

  /** The last two characters tell the package's five kinds apart, the prefix sets Goravel's key
      apart from them. */
  lemma KindsDiffer(a: Kind, b: Kind, g: string, h: string)
    requires Key(a, g) == Key(b, h)
    ensures a == b
  {
    KeyParts(a, g);
    KeyParts(b, h);
    SameSuffix(Prefix(a) + g, Prefix(b) + h, Suffix(a), Suffix(b));
    assert Key(a, g)[4] == Prefix(a)[4] && Key(b, h)[4] == Prefix(b)[4];
  }

  /** Main result: for all guard names, whatever characters they contain, two keys are equal only
      when they are the same kind of key of the same guard. */
  lemma KeysNeverCollide(a: Kind, b: Kind, g: string, h: string)
    requires Key(a, g) == Key(b, h)
    ensures a == b && g == h
  {
    KindsDiffer(a, b, g, h);
    KeyParts(a, g);
    KeyParts(b, h);
    hide Key, Prefix, Suffix;
    SameMiddle(Prefix(a), g, h, Suffix(a));
  }
}
