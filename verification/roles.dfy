/**
 * The access-control bits of UserInformationInterface: four single-bit
 * roles, none and all, stored in a user's values under 'acl'.
 */
module Roles {
  /** The key a user's role bits are stored under. */
  const KeyRoles: string := "acl"

  datatype Role = Upgrade | ManipulateRequirements | EditComposerJson | EditAppKernel

  const RoleNone: bv32 := 0
  const RoleAll: bv32 := 15

  /** The bit of each role. */
  function Bit(r: Role): (b: bv32)
    ensures b != 0 && b & (b - 1) == 0
    ensures b & RoleAll == b
  {
    match r
    case Upgrade => 1
    case ManipulateRequirements => 2
    case EditComposerJson => 4
    case EditAppKernel => 8
  }

  /** Distinct roles never share a bit. */
  lemma BitsDisjoint(a: Role, b: Role)
    ensures a != b <==> Bit(a) & Bit(b) == 0
  {
  }

  /** The role bits of a set of roles. */
  function Mask(rs: set<Role>): (m: bv32)
    ensures m & RoleAll == m
    ensures forall r: Role :: r in rs <==> m & Bit(r) != 0
  {
    (if Upgrade in rs then 1 else 0)
    | (if ManipulateRequirements in rs then 2 else 0)
    | (if EditComposerJson in rs then 4 else 0)
    | (if EditAppKernel in rs then 8 else 0)
  }

  /** The roles whose bit is set in `m`. */
  function RolesIn(m: bv32): (rs: set<Role>)
    ensures forall r: Role :: r in rs <==> m & Bit(r) == Bit(r)
  {
    (if m & 1 != 0 then {Upgrade} else {})
    + (if m & 2 != 0 then {ManipulateRequirements} else {})
    + (if m & 4 != 0 then {EditComposerJson} else {})
    + (if m & 8 != 0 then {EditAppKernel} else {})
  }

  /** ROLE_ALL is the union of the four roles and ROLE_NONE the empty union; masks and role sets correspond one to one. */
  lemma MaskRoundTrip(rs: set<Role>, m: bv32)
    ensures Mask({Upgrade, ManipulateRequirements, EditComposerJson, EditAppKernel}) == RoleAll
    ensures Mask({}) == RoleNone
    ensures RolesIn(Mask(rs)) == rs
    ensures m & RoleAll == m ==> Mask(RolesIn(m)) == m
  {
    assert forall r: Role :: r in RolesIn(Mask(rs)) <==> r in rs;
  }

  /** ROLE_ALL grants every role. */
  lemma AllHoldsEveryRole(role: Role)
    ensures role in RolesIn(RoleAll)
  {
  }
}
