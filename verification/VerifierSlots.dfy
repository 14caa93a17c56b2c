/** One slot of current_block_verifiers_list. */
module VerifierSlots {
  const BLOCK_VERIFIERS: nat := 50
  const COMMITTEE_SIZE: nat := 10
  const SEED_COUNT: nat := 4
  const BETA_LENGTH: nat := 128
  const KEY_LENGTH: nat := 64

  datatype Slot = Slot(name: string, address: string, key: string, ip: string, proof: string, beta: string,
                       total: nat, voted: bool, signature: string, selected: string)

  const BLANK := Slot("", "", "", "", "", "", 0, false, "", "")

  /** A slot with the identity of s and no vote recorded. */
  function Cleared(s: Slot): Slot {
    s.(total := 0, voted := false, signature := "", selected := "")
  }

  function Blanks(n: nat): (b: seq<Slot>)
    ensures |b| == n && forall i :: 0 <= i < n ==> b[i] == BLANK
  {
    seq(n, _ => BLANK)
  }
}
