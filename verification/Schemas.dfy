/** The cell lists of the modelled message classes: field numbers and kinds, in the order
    their WriteTo methods emit them. */
module Schemas {
  import opened Seqs
  import opened Codec

  // capability.proto

  const STRING_SET := Schema([Rep(1)])

  const PARAMETER_VALUE := [
    ScalarArm(3, U64),                                   // uint_value
    MsgArm(4, STRING_SET)]                               // set_value

  const CAPABILITY_PARAMETER := Schema([
    One(1, Blob),                                        // name
    One(2, Enum),                                        // reduction
    Alt(PARAMETER_VALUE)])                               // value

  const CAPABILITY := Schema([
    One(1, Blob),                                        // name
    One(2, U32),                                         // major
    Msgs(3, CAPABILITY_PARAMETER)])                      // parameters

  const CAPABILITY_SET := Schema([Msgs(1, CAPABILITY)])

  const NEGOTIATION_RESULT := Schema([
    One(1, U32),                                         // selected_epoch
    Sub(2, CAPABILITY_SET),                              // selected_capabilities
    One(3, Blob)])                                       // negotiation_hash

  // common.proto

  const IPV4_ADDRESS := Schema([One(1, Blob)])           // octets

  const IPV6_ADDRESS := Schema([
    One(1, Blob),                                        // octets
    One(2, U32)])                                        // zone_index

  const ADDRESS_ARMS := [
    MsgArm(1, IPV4_ADDRESS),                             // v4
    MsgArm(2, IPV6_ADDRESS)]                             // v6

  const IP_ADDRESS := Schema([Alt(ADDRESS_ARMS)])

  const IP_PREFIX := Schema([
    Sub(1, IP_ADDRESS),                                  // address
    One(2, U32)])                                        // prefix_len

  const AUTH := Schema([
    One(1, Blob),                                        // channel_binding
    One(2, Blob),                                        // detached_sig
    One(3, Blob),                                        // signed_payload
    One(4, Blob),                                        // signer_key_id
    One(5, U64),                                         // not_before_ms
    One(6, U64)])                                        // not_after_ms

  const MESSAGE_METADATA := Schema(Eleven(
    One(1, U32),                                         // proto_version
    One(2, Blob),                                        // message_id
    One(3, Blob),                                        // correlation_id
    One(4, Blob),                                        // causation_id
    One(5, Blob),                                        // causality_token
    One(6, U64),                                         // sender_time_ms
    One(7, Blob),                                        // twinnet_id
    One(8, Blob),                                        // sender_id
    One(9, U64),                                         // net_seq
    One(10, Blob),                                       // idempotency_key
    Sub(11, AUTH)))                                      // auth

  const PRECONDITION_ARMS := [
    ScalarArm(1, U64),                                   // if_version
    ScalarArm(2, Bool)]                                  // if_absent

  const VERSION_PRECONDITION := Schema([Alt(PRECONDITION_ARMS)])

  // errors.proto

  const EVIDENCE_ARMS := [
    ScalarArm(3, Blob),                                  // string_value
    ScalarArm(4, I64),                                   // int_value
    ScalarArm(5, U64),                                   // uint_value
    ScalarArm(6, Bool),                                  // bool_value
    MsgArm(7, IP_ADDRESS),                               // address_value
    MsgArm(8, IP_PREFIX),                                // prefix_value
    ScalarArm(9, Enum),                                  // family_value
    ScalarArm(10, U64)]                                  // duration_ms_value

  const EVIDENCE := Schema([
    One(1, Blob),                                        // key
    One(2, Enum),                                        // class
    Alt(EVIDENCE_ARMS)])                                 // value

  const RESOLVED_ATTRIBUTES := Schema(Nine(
    One(1, Enum),                                        // class
    One(2, Enum),                                        // severity
    One(3, Bool),                                        // terminal
    One(4, Bool),                                        // user_actionable
    One(5, Enum),                                        // remediation_class
    One(6, Enum),                                        // scope
    One(7, Blob),                                        // doc_anchor
    One(8, Blob),                                        // summary_key
    One(9, Blob)))                                       // next_action_key

  const ERROR_ENVELOPE := Schema(Ten(
    One(1, Blob),                                        // reason_code
    One(2, Blob),                                        // domain
    Sub(3, RESOLVED_ATTRIBUTES),                         // resolved
    One(4, Enum),                                        // component
    Msgs(5, EVIDENCE),                                   // evidence
    One(6, U64),                                         // occurred_at_ms
    One(7, Blob),                                        // correlation_id
    One(8, U32),                                         // state_from
    One(9, U32),                                         // state_to
    Rep(10)))                                            // contributing_reason_codes

  // dns.proto

  const SPLIT_DOMAIN_RULE := Schema([
    One(1, Blob),                                        // suffix
    One(2, Bool),                                        // exact_match
    One(3, Enum)])                                       // disposition

  const DNS_POLICY := Schema(Fourteen(
    One(1, Blob),                                        // dnspolicy_id
    One(2, U64),                                         // version
    One(3, Enum),                                        // mode
    Msgs(4, IPV4_ADDRESS),                               // servers_v4
    Msgs(5, IPV6_ADDRESS),                               // servers_v6
    Opt(6, Bool),                                        // servers_declared_v4
    Opt(7, Bool),                                        // servers_declared_v6
    Msgs(8, SPLIT_DOMAIN_RULE),                          // split_domains
    Rep(9),                                              // search_domains
    Opt(10, Bool),                                       // block_fallback_v4
    Opt(11, Bool),                                       // block_fallback_v6
    One(12, Bool),                                       // dnssec_validate
    One(13, Bool),                                       // upstream_dot
    One(14, U64)))                                       // not_after_ms

  // candidate.proto

  const CANDIDATE_PAIR := Schema([
    One(1, U32),                                         // local_candidate_index
    One(2, U32)])                                        // remote_candidate_index

  const PUNCH_SYNC := Schema([
    One(1, Blob),                                        // session_nonce
    One(2, U32),                                         // generation
    One(3, U32),                                         // punch_at_ms_relative
    Msgs(4, CANDIDATE_PAIR),                             // pairs
    Pack(5, U32)])                                       // birthday_port_hints

  // device.proto and the messages it holds

  const PROTOCOL_VERSION := Schema([One(1, U32), One(2, U32)])

  const SIGNED_STATEMENT := Schema([
    One(1, Blob),                                        // cose_sign1
    One(2, Enum)])                                       // statement_type

  const DEVICE_PLATFORM_INFO := Schema([
    One(1, Enum),                                        // platform
    One(2, Blob),                                        // os_version
    One(3, Blob),                                        // arch
    One(4, Blob)])                                       // agent_version

  const DEVICE_IDENTITY := Schema(Eleven(
    One(1, Blob),                                        // identity_id
    One(2, Blob),                                        // device_id
    One(3, U32),                                         // generation
    One(4, Blob),                                        // identity_public_key
    One(5, Enum),                                        // identity_key_algorithm
    One(6, Blob),                                        // tunnel_public_key
    One(7, Enum),                                        // tunnel_key_algorithm
    One(8, U32),                                         // tk_generation
    Sub(9, SIGNED_STATEMENT),                            // tunnel_key_binding
    One(10, Bool),                                       // hardware_backed
    One(11, U64)))                                       // created_at_ms

  const DEVICE := Schema(Fourteen(
    One(1, Blob),                                        // device_id
    One(2, Blob),                                        // twinnet_id
    Sub(3, DEVICE_IDENTITY),                             // identity
    One(4, Blob),                                        // label
    Sub(5, DEVICE_PLATFORM_INFO),                        // platform
    Pack(6, Enum),                                       // roles
    Sub(7, CAPABILITY_SET),                              // capabilities
    Sub(8, PROTOCOL_VERSION),                            // protocol_version
    Sub(9, IPV4_ADDRESS),                                // twinnet_address_v4
    Sub(10, IPV6_ADDRESS),                               // twinnet_address_v6
    One(11, U64),                                        // membership_epoch
    One(12, U64),                                        // version
    One(13, U64),                                        // created_at_ms
    One(14, Bool)))                                      // revoked

  // ------------------------------------------------------------ well-formedness

  /** The lowest and the highest field number of a cell. */
  function Low(c: Cell): nat { if c.Alt? then if c.arms == [] then 1 else c.arms[0].num else c.num }

  function Top(c: Cell): nat { if c.Alt? then if c.arms == [] then 1 else c.arms[|c.arms| - 1].num else c.num }

  predicate ArmsAscend(arms: seq<Arm>) {
    forall i :: 0 <= i < |arms| - 1 ==> arms[i].num < arms[i + 1].num
  }

  /** Field numbers rise from one cell to the next, and inside each oneof. */
  predicate Ascending(cells: seq<Cell>) {
    && (forall k :: 0 <= k < |cells| && cells[k].Alt? ==> cells[k].arms != [] && ArmsAscend(cells[k].arms))
    && (forall k :: 0 <= k < |cells| - 1 ==> Top(cells[k]) < Low(cells[k + 1]))
  }

  lemma {:induction false} ArmsRise(arms: seq<Arm>, i: nat, j: nat)
    requires ArmsAscend(arms) && i <= j < |arms|
    ensures arms[i].num <= arms[j].num && (i < j ==> arms[i].num < arms[j].num)
    decreases j - i
  {
    if i < j { ArmsRise(arms, i + 1, j); }
  }

  lemma NumsBetween(c: Cell, n: nat)
    requires c.Alt? ==> c.arms != [] && ArmsAscend(c.arms)
    requires n in Nums(c)
    ensures Low(c) <= n <= Top(c)
  {
    if c.Alt? {
      var i :| 0 <= i < |c.arms| && c.arms[i].num == n;
      ArmsRise(c.arms, 0, i);
      ArmsRise(c.arms, i, |c.arms| - 1);
    }
  }

  lemma {:induction false} CellsRise(cells: seq<Cell>, j: nat, k: nat)
    requires Ascending(cells) && j < k < |cells|
    ensures Top(cells[j]) < Low(cells[k])
    decreases k
  {
    if j < k - 1 {
      CellsRise(cells, j, k - 1);
      var c := cells[k - 1];
      if c.Alt? { ArmsRise(c.arms, 0, |c.arms| - 1); }
    }
  }

  /** Cell `i` is well formed and ends below the next one. */
  predicate Placed(cells: seq<Cell>, i: nat) {
    i < |cells| ==>
      && CellWellFormed(cells[i])
      && (cells[i].Alt? ==> cells[i].arms != [] && ArmsAscend(cells[i].arms))
      && (i + 1 < |cells| ==> Top(cells[i]) < Low(cells[i + 1]))
  }

  /** The cells are listed, as no class has more than 14. */
  lemma PlacedWellFormed(s: Schema)
    requires |s.cells| <= 14
    requires Placed(s.cells, 0) && Placed(s.cells, 1) && Placed(s.cells, 2) && Placed(s.cells, 3)
    requires Placed(s.cells, 4) && Placed(s.cells, 5) && Placed(s.cells, 6) && Placed(s.cells, 7)
    requires Placed(s.cells, 8) && Placed(s.cells, 9) && Placed(s.cells, 10) && Placed(s.cells, 11)
    requires Placed(s.cells, 12) && Placed(s.cells, 13)
    ensures WellFormed(s)
  {
    forall i | 0 <= i < |s.cells| ensures Placed(s.cells, i) {
      assert i < 7 || i >= 7;
    }
    AscendingDistinct(s);
  }

  lemma AscendingDistinct(s: Schema)
    requires forall i :: 0 <= i < |s.cells| ==> Placed(s.cells, i)
    ensures WellFormed(s)
  {
    assert Ascending(s.cells) by {
      forall k | 0 <= k < |s.cells| - 1 ensures Top(s.cells[k]) < Low(s.cells[k + 1]) { assert Placed(s.cells, k); }
      forall k | 0 <= k < |s.cells| && s.cells[k].Alt? ensures s.cells[k].arms != [] && ArmsAscend(s.cells[k].arms) {
        assert Placed(s.cells, k);
      }
    }
    forall k | 0 <= k < |s.cells| ensures CellWellFormed(s.cells[k]) { assert Placed(s.cells, k); }
    hide Placed, CellWellFormed;
    forall j, k | 0 <= j < k < |s.cells| ensures Nums(s.cells[j]) !! Nums(s.cells[k]) {
      CellsRise(s.cells, j, k);
      forall n | n in Nums(s.cells[j]) && n in Nums(s.cells[k]) ensures false {
        NumsBetween(s.cells[j], n);
        NumsBetween(s.cells[k], n);
      }
    }
  }

  // Each message in turn: the messages it holds come first.

  lemma StringSetWellFormed()
    ensures WellFormed(STRING_SET)
  {
    PlacedWellFormed(STRING_SET);
  }

  lemma CapabilityTreeWellFormed()
    ensures WellFormed(STRING_SET)
    ensures WellFormed(CAPABILITY_PARAMETER)
    ensures WellFormed(CAPABILITY)
    ensures WellFormed(CAPABILITY_SET)
    ensures WellFormed(NEGOTIATION_RESULT)
  {
    hide WellFormed;
    StringSetWellFormed();
    PlacedWellFormed(CAPABILITY_PARAMETER);
    PlacedWellFormed(CAPABILITY);
    PlacedWellFormed(CAPABILITY_SET);
    PlacedWellFormed(NEGOTIATION_RESULT);
  }

  lemma OctetsWellFormed()
    ensures WellFormed(IPV4_ADDRESS)
    ensures WellFormed(IPV6_ADDRESS)
  {
  }

  lemma AddressesWellFormed()
    ensures WellFormed(IPV4_ADDRESS)
    ensures WellFormed(IPV6_ADDRESS)
    ensures WellFormed(IP_ADDRESS)
    ensures WellFormed(IP_PREFIX)
  {
  }

  lemma AuthWellFormed()
    ensures WellFormed(AUTH)
    ensures WellFormed(VERSION_PRECONDITION)
  {
    PlacedWellFormed(AUTH);
  }

  lemma MetadataWellFormed()
    ensures WellFormed(AUTH)
    ensures WellFormed(VERSION_PRECONDITION)
    ensures WellFormed(MESSAGE_METADATA)
  {
    hide Eleven, WellFormed;
    AuthWellFormed();
    PlacedWellFormed(MESSAGE_METADATA);
  }

  lemma EvidenceWellFormed()
    ensures WellFormed(IP_ADDRESS)
    ensures WellFormed(IP_PREFIX)
    ensures WellFormed(EVIDENCE)
  {
    AddressesWellFormed();
    hide WellFormed;
    PlacedWellFormed(EVIDENCE);
  }

  lemma ResolvedWellFormed()
    ensures WellFormed(RESOLVED_ATTRIBUTES)
  {
    hide Nine, WellFormed;
    PlacedWellFormed(RESOLVED_ATTRIBUTES);
  }

  lemma ErrorTreeWellFormed()
    ensures WellFormed(RESOLVED_ATTRIBUTES)
    ensures WellFormed(EVIDENCE)
    ensures WellFormed(ERROR_ENVELOPE)
  {
    hide Ten, WellFormed;
    ResolvedWellFormed();
    EvidenceWellFormed();
    PlacedWellFormed(ERROR_ENVELOPE);
  }

  lemma SplitRuleWellFormed()
    ensures WellFormed(SPLIT_DOMAIN_RULE)
  {
  }

  lemma DnsWellFormed()
    ensures WellFormed(SPLIT_DOMAIN_RULE)
    ensures WellFormed(DNS_POLICY)
  {
    hide Fourteen, WellFormed;
    SplitRuleWellFormed();
    OctetsWellFormed();
    PlacedWellFormed(DNS_POLICY);
  }

  lemma CandidateWellFormed()
    ensures WellFormed(CANDIDATE_PAIR)
    ensures WellFormed(PUNCH_SYNC)
  {
  }

  lemma DeviceInfoWellFormed()
    ensures WellFormed(PROTOCOL_VERSION)
    ensures WellFormed(DEVICE_PLATFORM_INFO)
    ensures WellFormed(SIGNED_STATEMENT)
  {
  }

  lemma DeviceIdentityWellFormed()
    ensures WellFormed(DEVICE_IDENTITY)
  {
    hide Eleven, WellFormed;
    DeviceInfoWellFormed();
    PlacedWellFormed(DEVICE_IDENTITY);
  }

  lemma DeviceWellFormed()
    ensures WellFormed(DEVICE)
  {
    hide Fourteen, WellFormed;
    DeviceInfoWellFormed();
    DeviceIdentityWellFormed();
    CapabilityTreeWellFormed();
    OctetsWellFormed();
    PlacedWellFormed(DEVICE);
  }
}
