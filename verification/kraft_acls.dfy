/** `crates/metadata/src/kraft_translate.rs`: access control entries on the
    KIP-631 log. A removal names an entry by an id hashed from its content, and
    the decoder rescans the image for that id. */
module KraftAcls {
  import opened Base
  import opened Bytes
  import opened Collections
  import opened MetadataRecords
  import opened Images
  import opened KraftConfigs

  // ----- the canonical bytes of an entry -----

  function ResourceTypeToWire(t: ResourceType): byte
  {
    match t
    case Topic => 2
    case Group => 3
    case Cluster => 4
    case TransactionalId => 5
    case DelegationTokenResource => 6
    case User => 7
  }

  function PatternTypeToWire(t: PatternType): byte
  {
    match t
    case Literal => 3
    case Prefixed => 4
  }

  function OperationToWire(op: AclOperation): byte
  {
    match op
    case All => 2
    case Read => 3
    case Write => 4
    case CreateOp => 5
    case DeleteOp => 6
    case Alter => 7
    case Describe => 8
    case ClusterAction => 9
    case DescribeConfigs => 10
    case AlterConfigs => 11
    case IdempotentWrite => 12
    case CreateTokens => 13
    case DescribeTokens => 14
    case TwoPhaseCommit => 15
  }

  function PermissionToWire(t: PermissionType): byte
  {
    match t
    case Deny => 2
    case Allow => 3
  }

  function ResourceTypeFromWire(b: byte): Result<ResourceType, TranslateError>
  {
    match b
    case 2 => Ok(Topic)
    case 3 => Ok(Group)
    case 4 => Ok(Cluster)
    case 5 => Ok(TransactionalId)
    case 6 => Ok(DelegationTokenResource)
    case 7 => Ok(User)
    case _ => Err(InvalidValue)
  }

  function PatternTypeFromWire(b: byte): Result<PatternType, TranslateError>
  {
    match b
    case 3 => Ok(Literal)
    case 4 => Ok(Prefixed)
    case _ => Err(InvalidValue)
  }

  function OperationFromWire(b: byte): Result<AclOperation, TranslateError>
  {
    match b
    case 2 => Ok(All)
    case 3 => Ok(Read)
    case 4 => Ok(Write)
    case 5 => Ok(CreateOp)
    case 6 => Ok(DeleteOp)
    case 7 => Ok(Alter)
    case 8 => Ok(Describe)
    case 9 => Ok(ClusterAction)
    case 10 => Ok(DescribeConfigs)
    case 11 => Ok(AlterConfigs)
    case 12 => Ok(IdempotentWrite)
    case 13 => Ok(CreateTokens)
    case 14 => Ok(DescribeTokens)
    case 15 => Ok(TwoPhaseCommit)
    case _ => Err(InvalidValue)
  }

  function PermissionFromWire(b: byte): Result<PermissionType, TranslateError>
  {
    match b
    case 2 => Ok(Deny)
    case 3 => Ok(Allow)
    case _ => Err(InvalidValue)
  }

  // ----- the codes -----

  const RESOURCE_CODES: seq<ResourceType> := [Topic, Group, Cluster, TransactionalId, DelegationTokenResource, User]
  const PATTERN_CODES: seq<PatternType> := [Literal, Prefixed]
  const OPERATION_CODES: seq<AclOperation> :=
    [All, Read, Write, CreateOp, DeleteOp, Alter, Describe, ClusterAction, DescribeConfigs, AlterConfigs,
     IdempotentWrite, CreateTokens, DescribeTokens, TwoPhaseCommit]
  const PERMISSION_CODES: seq<PermissionType> := [Deny, Allow]

  /** Kafka's codes: resource types count from 2, patterns from 3, operations from 2 and
      permissions from 2, in the listed order, and no other byte is read. */
  lemma AclCodes(b: byte)
    ensures ResourceTypeFromWire(b) == if 2 <= b < 8 then Ok(RESOURCE_CODES[b - 2]) else Err(InvalidValue)
    ensures PatternTypeFromWire(b) == if 3 <= b < 5 then Ok(PATTERN_CODES[b - 3]) else Err(InvalidValue)
    ensures OperationFromWire(b) == if 2 <= b < 16 then Ok(OPERATION_CODES[b - 2]) else Err(InvalidValue)
    ensures PermissionFromWire(b) == if 2 <= b < 4 then Ok(PERMISSION_CODES[b - 2]) else Err(InvalidValue)
  {
  }

  /** Each value is written as the code that reads as it. */
  lemma AclCodesWritten(t: ResourceType, p: PatternType, op: AclOperation, r: PermissionType)
    ensures ResourceTypeFromWire(ResourceTypeToWire(t)) == Ok(t) && PatternTypeFromWire(PatternTypeToWire(p)) == Ok(p)
    ensures OperationFromWire(OperationToWire(op)) == Ok(op) && PermissionFromWire(PermissionToWire(r)) == Ok(r)
  {
  }

  /** A Rust string is at most `isize::MAX` bytes long. */
  predicate Storable(s: Str) { |Utf8(s)| <= I64_MAX }

  predicate StorableEntry(e: AclEntry)
  {
    Storable(e.resourceName) && Storable(e.principal) && Storable(e.host)
  }

  function Axes(e: AclEntry): (s: seq<byte>)
    ensures |s| == 4
  {
    [ResourceTypeToWire(e.resourceType), PatternTypeToWire(e.patternType),
     OperationToWire(e.operation), PermissionToWire(e.permissionType)]
  }

  /** A string behind its eight-byte length. */
  function Prefixed8(s: Str): (r: seq<byte>)
    requires Storable(s)
    ensures |r| == 8 + |Utf8(s)|
  {
    Widths();
    ToLe(|Utf8(s)|, 8) + Utf8(s)
  }

  /** The buffer that `acl_id` hashes. */
  function CanonicalBytes(e: AclEntry): seq<byte>
    requires StorableEntry(e)
  {
    Axes(e) + Prefixed8(e.resourceName) + Prefixed8(e.principal) + Prefixed8(e.host)
  }

  /** A length-prefixed string can be cut off the front of what follows it. */
  lemma CutPrefixed(a: Str, b: Str, restA: seq<byte>, restB: seq<byte>)
    requires Storable(a) && Storable(b)
    requires Prefixed8(a) + restA == Prefixed8(b) + restB
    ensures a == b && restA == restB
  {
    Widths();
    var p, q := Prefixed8(a) + restA, Prefixed8(b) + restB;
    assert p[..8] == ToLe(|Utf8(a)|, 8) && q[..8] == ToLe(|Utf8(b)|, 8);
    FromToLe(|Utf8(a)|, 8);
    FromToLe(|Utf8(b)|, 8);
    var n := 8 + |Utf8(a)|;
    assert p[8..n] == Utf8(a) && q[8..n] == Utf8(b);
    Utf8Injective(a, b);
    assert p[n..] == restA && q[n..] == restB;
  }

  lemma AxesInjective(a: AclEntry, b: AclEntry)
    requires Axes(a) == Axes(b)
    ensures a.resourceType == b.resourceType && a.patternType == b.patternType
    ensures a.operation == b.operation && a.permissionType == b.permissionType
  {
    assert ResourceTypeToWire(a.resourceType) == Axes(a)[0] == Axes(b)[0];
    assert PatternTypeToWire(a.patternType) == Axes(a)[1] == Axes(b)[1];
    assert OperationToWire(a.operation) == Axes(a)[2] == Axes(b)[2];
    assert PermissionToWire(a.permissionType) == Axes(a)[3] == Axes(b)[3];
  }

  function Names(e: AclEntry): seq<byte>
    requires StorableEntry(e)
  {
    Prefixed8(e.resourceName) + (Prefixed8(e.principal) + (Prefixed8(e.host) + []))
  }

  lemma NamesInjective(a: AclEntry, b: AclEntry)
    requires StorableEntry(a) && StorableEntry(b) && Names(a) == Names(b)
    ensures a.resourceName == b.resourceName && a.principal == b.principal && a.host == b.host
  {
    var hostA, hostB := Prefixed8(a.host) + [], Prefixed8(b.host) + [];
    CutPrefixed(a.resourceName, b.resourceName, Prefixed8(a.principal) + hostA, Prefixed8(b.principal) + hostB);
    CutPrefixed(a.principal, b.principal, hostA, hostB);
    CutPrefixed(a.host, b.host, [], []);
  }

  lemma CanonicalParts(e: AclEntry)
    requires StorableEntry(e)
    ensures CanonicalBytes(e)[..4] == Axes(e) && CanonicalBytes(e)[4..] == Names(e)
  {
  }

  /** Distinct entries have distinct canonical bytes. */
  lemma CanonicalInjective(a: AclEntry, b: AclEntry)
    requires StorableEntry(a) && StorableEntry(b) && CanonicalBytes(a) == CanonicalBytes(b)
    ensures a == b
  {
    CanonicalParts(a);
    CanonicalParts(b);
    AxesInjective(a, b);
    NamesInjective(a, b);
  }

  // ----- the hash -----

  /** A hash that mixes its input in unit by unit. */
  function Lane<H, B>(mix: (H, B) -> H, h: H, input: seq<B>): H
  {
    if input == [] then h else mix(Lane(mix, h, input[..|input| - 1]), input[|input| - 1])
  }

  /** Each step can be undone, knowing either of its inputs. */
  ghost predicate Undoable<H(!new), B(!new)>(mix: (H, B) -> H)
  {
    && (forall h, g, b :: mix(h, b) == mix(g, b) ==> h == g)
    && (forall h, b, c :: mix(h, b) == mix(h, c) ==> b == c)
  }

  lemma {:induction false} SameTail<H(!new), B(!new)>(mix: (H, B) -> H, h: H, p: seq<B>, q: seq<B>, tail: seq<B>)
    requires Undoable(mix) && Lane(mix, h, p + tail) == Lane(mix, h, q + tail)
    ensures Lane(mix, h, p) == Lane(mix, h, q)
    decreases |tail|
  {
    if tail == [] {
      assert p + tail == p && q + tail == q;
    } else {
      var n := |tail| - 1;
      assert (p + tail)[..|p| + n] == p + tail[..n] && (q + tail)[..|q| + n] == q + tail[..n];
      SameTail(mix, h, p, q, tail[..n]);
    }
  }

  /** Inputs that differ in one place never collide. */
  lemma OnePlaceNeverCollides<H(!new), B(!new)>(mix: (H, B) -> H, h: H, p: seq<B>, q: seq<B>, i: nat)
    requires Undoable(mix) && |p| == |q| && i < |p| && Lane(mix, h, p) == Lane(mix, h, q)
    requires p[..i] == q[..i] && p[i + 1..] == q[i + 1..]
    ensures p[i] == q[i]
  {
    assert p == p[..i + 1] + p[i + 1..] && q == q[..i + 1] + q[i + 1..];
    SameTail(mix, h, p[..i + 1], q[..i + 1], p[i + 1..]);
    assert p[..i + 1][..i] == p[..i] && q[..i + 1][..i] == q[..i];
  }

  const TWO64: int := 0x1_0000_0000_0000_0000
  const PRIME: int := 0x0000_0100_0000_01b3
  const HI_BASIS: u64 := 0xcbf2_9ce4_8422_2325
  const LO_BASIS: u64 := 0x1099_5663_8a1b_c7e9

  type u64 = x: int | 0 <= x < 0x1_0000_0000_0000_0000

  /** Exclusive or of the low `n` bits. */
  function Xor(n: nat, a: nat, b: nat): nat
  {
    if n == 0 then 0 else (if a % 2 == b % 2 then 0 else 1) + 2 * Xor(n - 1, a / 2, b / 2)
  }

  function XorByte(a: byte, b: byte): (r: byte)
  {
    XorBound(8, a, b);
    assert Pow2(8) == 2 * (2 * Pow2(6)) && Pow2(6) == 2 * (2 * Pow2(4)) && Pow2(4) == 16;
    Xor(8, a, b)
  }

  function Pow2(n: nat): nat { if n == 0 then 1 else 2 * Pow2(n - 1) }

  lemma {:induction false} XorBound(n: nat, a: nat, b: nat)
    ensures Xor(n, a, b) < Pow2(n)
  {
    if n > 0 { XorBound(n - 1, a / 2, b / 2); }
  }

  lemma {:induction false} XorCancels(n: nat, a: nat, b: nat, c: nat)
    requires b < Pow2(n) && c < Pow2(n) && Xor(n, a, b) == Xor(n, a, c)
    ensures b == c
  {
    if n > 0 { XorCancels(n - 1, a / 2, b / 2, c / 2); }
  }

  lemma {:induction false} XorCommutes(n: nat, a: nat, b: nat)
    ensures Xor(n, a, b) == Xor(n, b, a)
  {
    if n > 0 { XorCommutes(n - 1, a / 2, b / 2); }
  }

  lemma XorByteCancels(a: byte, b: byte, c: byte)
    ensures XorByte(a, b) == XorByte(a, c) ==> b == c
    ensures XorByte(b, a) == XorByte(c, a) ==> b == c
  {
    assert Pow2(8) == 2 * (2 * Pow2(6)) && Pow2(6) == 2 * (2 * Pow2(4)) && Pow2(4) == 16;
    XorCommutes(8, b, a);
    XorCommutes(8, c, a);
    if Xor(8, a, b) == Xor(8, a, c) { XorCancels(8, a, b, c); }
  }

  /** The byte meets the low byte of the state. */
  function XorLow(h: u64, b: byte): (r: u64)
    ensures r / 256 == h / 256 && r % 256 == XorByte(h % 256, b)
  {
    h / 256 * 256 + XorByte(h % 256, b)
  }

  /** One FNV-1a step; the product wraps at 64 bits. */
  function Mix(h: u64, b: byte): u64
  {
    XorLow(h, b) * PRIME % TWO64
  }

  lemma XorExample()
    ensures Xor(8, 0x25, 0x61) == 0x44
  {
    assert Xor(1, 0, 0) == 0 && Xor(2, 0, 1) == 1 && Xor(3, 1, 3) == 2 && Xor(4, 2, 6) == 4;
    assert Xor(5, 4, 12) == 8 && Xor(6, 9, 24) == 17 && Xor(7, 18, 48) == 34;
  }

  lemma XorByteExample()
    ensures XorByte(0x25, 0x61) == 0x44
  {
    XorExample();
  }

  lemma MixOf(h: u64, b: byte, low: byte, x: byte, mixed: u64)
    requires h % 256 == low && XorByte(low, b) == x && (h - low + x) * PRIME % TWO64 == mixed
    ensures Mix(h, b) == mixed
  {
    assert XorLow(h, b) == h - low + x;
  }

  lemma ProductExample()
    ensures 0xcbf2_9ce4_8422_2344 * PRIME % TWO64 == 0xaf63_dc4c_8601_ec8c
  {
    assert 0xcbf2_9ce4_8422_2344 * PRIME == 0xcb_f29c_e5de * TWO64 + 0xaf63_dc4c_8601_ec8c;
  }

  lemma LaneOfOne(h: u64, b: byte, low: byte, x: byte, mixed: u64)
    requires h % 256 == low && XorByte(low, b) == x && (h - low + x) * PRIME % TWO64 == mixed
    ensures Lane(Mix, h, [b]) == mixed
  {
    assert [b][..0] == [];
    MixOf(h, b, low, x, mixed);
  }

  /** The published FNV-1a hash of the one-byte text "a". */
  lemma HashOfA(h: u64, b: byte)
    requires h == HI_BASIS && b == 0x61
    ensures Lane(Mix, h, [b]) == 0xaf63_dc4c_8601_ec8c
  {
    XorByteExample();
    ProductExample();
    LaneOfOne(h, b, 0x25, 0x44, 0xaf63_dc4c_8601_ec8c);
  }

  /** The prime has an inverse modulo 2^64. */
  lemma CancelPrime(a: u64, b: u64)
    requires a * PRIME % TWO64 == b * PRIME % TWO64
    ensures a == b
  {
    var k := a * PRIME / TWO64 - b * PRIME / TWO64;
    assert (a - b) * PRIME == k * TWO64;
    var inverse := 0xce96_5057_aff6_957b;
    var j := PRIME * inverse / TWO64;
    assert PRIME * inverse == 1 + j * TWO64;
    assert (a - b) * PRIME * inverse == k * inverse * TWO64;
    assert (a - b) + (a - b) * j * TWO64 == k * inverse * TWO64;
    var m := k * inverse - (a - b) * j;
    assert a - b == m * TWO64;
    assert m == 0;
  }

  lemma UnmixHash(h: u64, g: u64, b: byte)
    requires Mix(h, b) == Mix(g, b)
    ensures h == g
  {
    CancelPrime(XorLow(h, b), XorLow(g, b));
    XorByteCancels(b, h % 256, g % 256);
  }

  lemma UnmixByte(h: u64, b: byte, c: byte)
    requires Mix(h, b) == Mix(h, c)
    ensures b == c
  {
    CancelPrime(XorLow(h, b), XorLow(h, c));
    XorByteCancels(h % 256, b, c);
  }

  lemma MixIsUndoable()
    ensures Undoable(Mix)
  {
    forall h: u64, g: u64, b: byte | Mix(h, b) == Mix(g, b) ensures h == g { UnmixHash(h, g, b); }
    forall h: u64, b: byte, c: byte | Mix(h, b) == Mix(h, c) ensures b == c { UnmixByte(h, b, c); }
  }

  type AclId = (u64, u64)

  /** `fnv1a_128`: two lanes over the same bytes. */
  method Fnv1a128(bytes: seq<byte>) returns (id: AclId)
    ensures id == (Lane(Mix, HI_BASIS, bytes), Lane(Mix, LO_BASIS, bytes))
  {
    var hi := FnvLane(bytes, HI_BASIS);
    var lo := FnvLane(bytes, LO_BASIS);
    return (hi, lo);
  }

  method FnvLane(bytes: seq<byte>, basis: u64) returns (h: u64)
    ensures h == Lane(Mix, basis, bytes)
  {
    h := basis;
    for i := 0 to |bytes|
      invariant h == Lane(Mix, basis, bytes[..i])
    {
      assert bytes[..i + 1][..i] == bytes[..i];
      h := Mix(h, bytes[i]);
    }
    assert bytes[..|bytes|] == bytes;
  }

  function AclIdOf(e: AclEntry): AclId
    requires StorableEntry(e)
  {
    (Lane(Mix, HI_BASIS, CanonicalBytes(e)), Lane(Mix, LO_BASIS, CanonicalBytes(e)))
  }

  lemma SplitAtOperation(e: AclEntry)
    requires StorableEntry(e)
    ensures var p := CanonicalBytes(e);
            |p| == 4 + |Names(e)| && p[..2] == Axes(e)[..2] && p[2] == OperationToWire(e.operation)
            && p[3..] == Axes(e)[3..] + Names(e)
  {
    assert CanonicalBytes(e) == Axes(e) + Names(e);
  }

  /** Entries that differ only in the operation never share an id. */
  lemma OperationsNeverCollide(e: AclEntry, op: AclOperation)
    requires StorableEntry(e) && AclIdOf(e) == AclIdOf(e.(operation := op))
    ensures e.operation == op
  {
    var d := e.(operation := op);
    SplitAtOperation(e);
    SplitAtOperation(d);
    assert Axes(e)[..2] == Axes(d)[..2] && Axes(e)[3..] == Axes(d)[3..] && Names(e) == Names(d);
    MixIsUndoable();
    OnePlaceNeverCollides(Mix, HI_BASIS, CanonicalBytes(e), CanonicalBytes(d), 2);
  }

  // ----- removal by id -----

  /** The decoder's rescan: the first entry on a walk of the table that has the id. */
  function FindEntry<T(==)>(walk: seq<AclEntry>, id: AclEntry -> T, wanted: T): (r: Option<AclEntry>)
    ensures r.Some? ==> r.value in walk && id(r.value) == wanted
    ensures r.None? ==> forall e :: e in walk ==> id(e) != wanted
  {
    if walk == [] then None
    else if id(walk[0]) == wanted then Some(walk[0])
    else FindEntry(walk[1..], id, wanted)
  }

  function RemovalFromKraft<T(==)>(walk: seq<AclEntry>, id: AclEntry -> T, wanted: T): Result<Record, TranslateError>
  {
    match FindEntry(walk, id, wanted)
    case Some(e) => Ok(V1DeleteAccessControlEntry(ExactFilter(e)))
    case None => Err(UnknownAclId)
  }

  /** Every order in which the table may be walked at each removal decodes, and
      all of them end in `goal`. */
  ghost predicate EveryScanEnds<T>(x: Image, id: AclEntry -> T, wanted: seq<T>, goal: Image)
    decreases |wanted|
  {
    if wanted == [] then x == goal
    else
      forall walk | Enumerates(walk, x.security.acls) ::
        var rec := RemovalFromKraft(walk, id, wanted[0]);
        rec.Ok? && EveryScanEnds(Apply(x, rec.value), id, wanted[1..], goal)
  }

  lemma ScanStep<T>(x: Image, id: AclEntry -> T, wanted: seq<T>, goal: Image, walk: seq<AclEntry>,
                    rec: Result<Record, TranslateError>)
    requires wanted != [] && EveryScanEnds(x, id, wanted, goal) && Enumerates(walk, x.security.acls)
    requires rec == RemovalFromKraft(walk, id, wanted[0])
    ensures rec.Ok? && EveryScanEnds(Apply(x, rec.value), id, wanted[1..], goal)
  {
  }

  /** `delete_acl_to_kraft`: the ids of the matched entries, in walk order. */
  function Ids<T>(order: seq<AclEntry>, id: AclEntry -> T): (ids: seq<T>)
    ensures |ids| == |order|
  {
    seq(|order|, i requires 0 <= i < |order| => id(order[i]))
  }

  function WithAcls(x: Image, acls: set<AclEntry>): Image
  {
    x.(security := x.security.(acls := acls))
  }

  lemma ApplyRemoval(x: Image, e: AclEntry)
    ensures Apply(x, V1DeleteAccessControlEntry(ExactFilter(e))) == WithAcls(x, x.security.acls - {e})
  {
    assert (set e' | e' in x.security.acls && !ExactFilter(e).Matches(e')) == x.security.acls - {e};
  }

  lemma ApplyDelete(x: Image, f: AclEntryFilter)
    ensures Apply(x, V1DeleteAccessControlEntry(f)) == WithAcls(x, set e | e in x.security.acls && !f.Matches(e))
  {
  }

  /** Taking the entry a scan found off the list of entries still to go: the one
      whose id was read takes its place. */
  function Exchanged(order: seq<AclEntry>, k: nat): seq<AclEntry>
    requires k < |order|
  {
    if k == 0 then order[1..] else order[1..][k - 1 := order[0]]
  }

  lemma ExchangedElems(order: seq<AclEntry>, k: nat)
    requires Distinct(order) && k < |order|
    ensures Distinct(Exchanged(order, k)) && Elems(Exchanged(order, k)) == Elems(order) - {order[k]}
  {
    var left := Exchanged(order, k);
    assert forall i :: 0 <= i < |left| ==> left[i] == if i == k - 1 then order[0] else order[i + 1];
    forall e | e in order && e != order[k] ensures e in left {
      var i :| 0 <= i < |order| && order[i] == e;
      assert e == if i == 0 then left[k - 1] else left[i - 1];
    }
  }

  lemma ExchangedIds<T>(order: seq<AclEntry>, id: AclEntry -> T, k: nat)
    requires k < |order| && id(order[k]) == id(order[0])
    ensures Ids(Exchanged(order, k), id) == Ids(order, id)[1..]
  {
  }

  lemma {:induction false} RemovalsEnd<T>(x: Image, id: AclEntry -> T, order: seq<AclEntry>, keep: set<AclEntry>)
    requires Distinct(order) && x.security.acls == Elems(order) + keep && Elems(order) !! keep
    requires forall e, u :: e in order && u in keep ==> id(e) != id(u)
    ensures EveryScanEnds(x, id, Ids(order, id), WithAcls(x, keep))
    decreases |order|
  {
    if order == [] {
      assert x.security.acls == keep;
    } else {
      ElemAt(order, 0);
      forall walk | Enumerates(walk, x.security.acls)
        ensures var rec := RemovalFromKraft(walk, id, Ids(order, id)[0]);
                rec.Ok? && EveryScanEnds(Apply(x, rec.value), id, Ids(order, id)[1..], WithAcls(x, keep))
      {
        assert order[0] in Elems(walk);
        var e := FindEntry(walk, id, id(order[0])).value;
        assert e in Elems(walk);
        var k :| 0 <= k < |order| && order[k] == e;
        var left := Exchanged(order, k);
        ExchangedElems(order, k);
        ExchangedIds(order, id, k);
        ApplyRemoval(x, e);
        forall d | d in left ensures d in order { assert d in Elems(left); }
        RemovalsEnd(WithAcls(x, x.security.acls - {e}), id, left, keep);
      }
    }
  }

  lemma {:induction false} RemovalsOnlyRemove<T>(x: Image, id: AclEntry -> T, wanted: seq<T>, goal: Image)
    requires EveryScanEnds(x, id, wanted, goal)
    ensures goal.security.acls <= x.security.acls
    decreases |wanted|
  {
    if wanted != [] {
      var walk := SomeWalk(x.security.acls);
      var rec := RemovalFromKraft(walk, id, wanted[0]);
      assert rec.Ok?;
      ApplyRemoval(x, FindEntry(walk, id, wanted[0]).value);
      RemovalsOnlyRemove(Apply(x, rec.value), id, wanted[1..], goal);
    }
  }

  /** An entry to keep whose id is to be removed is lost on some scan. */
  lemma {:induction false} SharedIdIsLost<T>(x: Image, id: AclEntry -> T, wanted: seq<T>, goal: Image, u: AclEntry)
    requires u in x.security.acls && id(u) in wanted && EveryScanEnds(x, id, wanted, goal)
    ensures u !in goal.security.acls
    decreases |wanted|
  {
    var walk := WalkFrom(x.security.acls, u);
    var rec := RemovalFromKraft(walk, id, wanted[0]);
    assert rec.Ok?;
    var e := FindEntry(walk, id, wanted[0]).value;
    ApplyRemoval(x, e);
    if wanted[0] == id(u) {
      RemovalsOnlyRemove(Apply(x, rec.value), id, wanted[1..], goal);
    } else {
      SharedIdIsLost(Apply(x, rec.value), id, wanted[1..], goal, u);
    }
  }

  /** A delete sent as removals by id leaves exactly what the filter does not
      match, whatever order the tables are walked in, if and only if no matched
      entry shares its id with an unmatched one. */
  lemma DeleteFanOutIsFilter<T>(x: Image, f: AclEntryFilter, id: AclEntry -> T, order: seq<AclEntry>)
    requires Enumerates(order, set e | e in x.security.acls && f.Matches(e))
    ensures EveryScanEnds(x, id, Ids(order, id), Apply(x, V1DeleteAccessControlEntry(f)))
            <==> forall e, u :: e in x.security.acls && u in x.security.acls && f.Matches(e) && !f.Matches(u) ==> id(e) != id(u)
  {
    var keep := set e | e in x.security.acls && !f.Matches(e);
    ApplyDelete(x, f);
    assert x.security.acls == Elems(order) + keep;
    forall e ensures e in order <==> e in x.security.acls && f.Matches(e) { assert e in order <==> e in Elems(order); }
    if forall e, u :: e in x.security.acls && u in x.security.acls && f.Matches(e) && !f.Matches(u) ==> id(e) != id(u) {
      RemovalsEnd(x, id, order, keep);
    } else {
      var e, u :| e in x.security.acls && u in x.security.acls && f.Matches(e) && !f.Matches(u) && id(e) == id(u);
      var i :| 0 <= i < |order| && order[i] == e;
      assert Ids(order, id)[i] == id(u);
      if EveryScanEnds(x, id, Ids(order, id), Apply(x, V1DeleteAccessControlEntry(f))) {
        SharedIdIsLost(x, id, Ids(order, id), Apply(x, V1DeleteAccessControlEntry(f)), u);
      }
    }
  }

  function IdOrZero(e: AclEntry): AclId { if StorableEntry(e) then AclIdOf(e) else (0, 0) }

  /** As long as the hash separates the canonical bytes of the image's entries,
      the removals leave exactly what the filter does not match. */
  lemma DeleteWithoutCollisions(x: Image, f: AclEntryFilter, order: seq<AclEntry>)
    requires forall e :: e in x.security.acls ==> StorableEntry(e)
    requires forall e, u :: e in x.security.acls && u in x.security.acls && CanonicalBytes(e) != CanonicalBytes(u) ==>
               AclIdOf(e) != AclIdOf(u)
    requires Enumerates(order, set e | e in x.security.acls && f.Matches(e))
    ensures EveryScanEnds(x, IdOrZero, Ids(order, IdOrZero), Apply(x, V1DeleteAccessControlEntry(f)))
  {
    forall e, u | e in x.security.acls && u in x.security.acls && f.Matches(e) && !f.Matches(u)
      ensures IdOrZero(e) != IdOrZero(u)
    {
      if CanonicalBytes(e) == CanonicalBytes(u) { CanonicalInjective(e, u); }
    }
    DeleteFanOutIsFilter(x, f, IdOrZero, order);
  }
}
