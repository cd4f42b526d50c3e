/** The durable identity of a tab (`OriginTabIdentity` in `zellij-utils/src/run_triage.rs`). */
module TabIdentity {

  predicate IsHexDigit(c: char) {
    '0' <= c <= '9' || 'a' <= c <= 'f' || 'A' <= c <= 'F'
  }

  /** A durable tab instance id: 32 ASCII hex digits, of either case. */
  predicate IsInstanceId(s: string) {
    |s| == 32 && forall i :: 0 <= i < |s| ==> IsHexDigit(s[i])
  }

  function LowerChar(c: char): char {
    if 'A' <= c <= 'Z' then (c as int + 32) as char else c
  }

  /** `to_ascii_lowercase`. */
  function Lower(s: string): (r: string)
    ensures |r| == |s|
  {
    seq(|s|, i requires 0 <= i < |s| => LowerChar(s[i]))
  }

  /** No upper-case ASCII letter. */
  predicate IsLower(s: string) {
    forall i :: 0 <= i < |s| ==> !('A' <= s[i] <= 'Z')
  }

  lemma LowerFixesExactlyLowerCase(s: string)
    ensures Lower(s) == s <==> IsLower(s)
  {
    forall i | 0 <= i < |s| && 'A' <= s[i] <= 'Z'
      ensures Lower(s)[i] != s[i]
    {}
    if IsLower(s) {
      assert forall i :: 0 <= i < |s| ==> Lower(s)[i] == s[i];
    }
  }

  datatype Identity = Identity(
    session: string, name: string, id: nat, incarnation: string, instanceId: string)
  {
    predicate IsTyped() {
      session != [] && name != [] && incarnation != [] && IsInstanceId(instanceId)
    }

    predicate IsSameDurableTab(other: Identity) {
      && session == other.session
      && name == other.name
      && instanceId != []
      && instanceId == other.instanceId
    }
  }
}
