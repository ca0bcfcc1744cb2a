/** The field syntaxes the control plane and the cache accept, written out from their patterns. */
module Patterns {
  predicate Lower(c: char) { 'a' <= c <= 'z' || '0' <= c <= '9' }

  predicate Alphanumeric(c: char) { Lower(c) || 'A' <= c <= 'Z' }

  predicate Hex(c: char) { 'a' <= c <= 'f' || '0' <= c <= '9' }

  /** `^[A-Za-z0-9][A-Za-z0-9_.-]{0,127}$` */
  predicate ValidWorkerID(s: string) {
    && 1 <= |s| <= 128 && Alphanumeric(s[0])
    && forall i :: 1 <= i < |s| ==> Alphanumeric(s[i]) || s[i] in "_.-"
  }

  /** `[a-z0-9][a-z0-9_.-]*`, one half of a platform. */
  predicate PlatformPart(s: string) {
    && s != [] && Lower(s[0])
    && forall i :: 1 <= i < |s| ==> Lower(s[i]) || s[i] in "_.-"
  }

  /** `^[a-z0-9][a-z0-9_.-]*` + `/` + `[a-z0-9][a-z0-9_.-]{0,63}$` */
  predicate ValidPlatform(s: string) {
    exists i :: 0 <= i < |s| && s[i] == '/' && PlatformPart(s[..i]) && PlatformPart(s[i + 1..]) && |s| - i - 1 <= 64
  }

  /** `^[a-z0-9][a-z0-9_.:/-]{0,127}$` */
  predicate ValidCapability(s: string) {
    && 1 <= |s| <= 128 && Lower(s[0])
    && forall i :: 1 <= i < |s| ==> Lower(s[i]) || s[i] in "_.:/-"
  }

  /** `^[a-z0-9][a-z0-9-]{0,62}$`: build and chunk session identifiers. */
  predicate ValidBuildID(s: string) {
    && 1 <= |s| <= 63 && Lower(s[0])
    && forall i :: 1 <= i < |s| ==> Lower(s[i]) || s[i] == '-'
  }

  /** `^[0-9a-f]{64}$` */
  predicate HexDigest(s: string) {
    |s| == 64 && forall i :: 0 <= i < |s| ==> Hex(s[i])
  }

  /** `^sha256:[a-f0-9]{64}$` */
  predicate ValidDigest(s: string) {
    "sha256:" <= s && HexDigest(s[7..])
  }

  /** The runes `strings.TrimSpace` removes. */
  predicate Space(c: char) {
    || c in " \t\n\r\U{0B}\U{0C}\U{85}\U{A0}\U{1680}\U{2028}\U{2029}\U{202F}\U{205F}\U{3000}"
    || '\U{2000}' <= c <= '\U{200A}'
  }

  predicate Blank(s: string) {
    forall i :: 0 <= i < |s| ==> Space(s[i])
  }
}
