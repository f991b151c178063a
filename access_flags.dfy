/** Method access flags of section 4.6 (Table 4.6-A) of the Java Virtual
    Machine Specification, as the host compiler keeps them in a declaration's
    32-bit `modifiers` word, and the access level such a word denotes. */
module AccessFlags {

  const ACC_PUBLIC: bv32 := 0x0001
  const ACC_PRIVATE: bv32 := 0x0002
  const ACC_PROTECTED: bv32 := 0x0004
  const ACC_STATIC: bv32 := 0x0008
  const ACC_FINAL: bv32 := 0x0010
  const ACC_SYNCHRONIZED: bv32 := 0x0020

  /** The three bits that decide a member's access: private, protected, public. */
  const ACCESS_MASK: bv32 := ACC_PRIVATE | ACC_PROTECTED | ACC_PUBLIC

  /** The access levels a method declaration can be read as. */
  datatype AccessLevel = PUBLIC | PROTECTED | PACKAGE | PRIVATE

  /** The access bit a level is granted with; package access has none. */
  function Bit(level: AccessLevel): (b: bv32)
    ensures b & !ACCESS_MASK == 0
    ensures level != PACKAGE ==> b != 0
  {
    match level
    case PUBLIC => ACC_PUBLIC
    case PROTECTED => ACC_PROTECTED
    case PRIVATE => ACC_PRIVATE
    case PACKAGE => 0
  }

  /** The access level of a modifiers word. When several access bits are set,
      public beats protected and protected beats private; package access is
      read only from a word with none of the three. */
  function LevelOf(mods: bv32): (r: AccessLevel)
    ensures r == PACKAGE <==> mods & ACCESS_MASK == 0
    ensures r != PACKAGE ==> mods & Bit(r) != 0
    ensures r != PUBLIC ==> mods & ACC_PUBLIC == 0
    ensures r == PRIVATE || r == PACKAGE ==> mods & ACC_PROTECTED == 0
  {
    if mods & ACC_PUBLIC != 0 then PUBLIC
    else if mods & ACC_PROTECTED != 0 then PROTECTED
    else if mods & ACC_PRIVATE != 0 then PRIVATE
    else PACKAGE
  }

  /** The word that `makePackagePrivate` leaves: all three access bits cleared. */
  function PackagePrivate(mods: bv32): (r: bv32)
    ensures r & ACCESS_MASK == 0
    ensures r & !ACCESS_MASK == mods & !ACCESS_MASK
  {
    mods & !ACCESS_MASK
  }

  /** The word that the `make*` operation for `level` leaves: the access bits
      cleared, then the level's own bit set. It is read back as `level`, keeps
      every bit outside the access mask, and holds at most one access bit. */
  function WithAccess(mods: bv32, level: AccessLevel): (r: bv32)
    ensures LevelOf(r) == level
    ensures r & !ACCESS_MASK == mods & !ACCESS_MASK
    ensures r & ACCESS_MASK == Bit(level)
  {
    PackagePrivate(mods) | Bit(level)
  }

  /** Clearing the access bits and then or-ing in a level's bit, the two steps
      of every `make*` but `makePackagePrivate`, is granting that level. */
  lemma ClearThenGrant(mods: bv32, level: AccessLevel)
    ensures PackagePrivate(mods) | Bit(level) == WithAccess(mods, level)
  {
  }

  /** `makePackagePrivate` is the `make*` operation for package access, so
      every lemma about `WithAccess` covers it too. */
  lemma PackageIsWithAccess(mods: bv32)
    ensures PackagePrivate(mods) == WithAccess(mods, PACKAGE)
  {
  }

  /** Applying a `make*` operation twice leaves the word it leaves after once. */
  lemma WithAccessIdempotent(mods: bv32, level: AccessLevel)
    ensures WithAccess(WithAccess(mods, level), level) == WithAccess(mods, level)
  {
  }

  /** Only the last of two `make*` operations matters. */
  lemma WithAccessLastWins(mods: bv32, first: AccessLevel, second: AccessLevel)
    ensures WithAccess(WithAccess(mods, first), second) == WithAccess(mods, second)
  {
  }

  /** Re-granting the level a word is already read as changes nothing exactly
      when the word holds no more than that level's own access bit. */
  lemma WithCurrentLevel(mods: bv32)
    ensures WithAccess(mods, LevelOf(mods)) == mods <==> mods & ACCESS_MASK == Bit(LevelOf(mods))
  {
  }

  /** The static, final and synchronized flags survive every `make*`. */
  lemma WithAccessKeepsOtherFlags(mods: bv32, level: AccessLevel)
    ensures WithAccess(mods, level) & ACC_STATIC == mods & ACC_STATIC
    ensures WithAccess(mods, level) & ACC_FINAL == mods & ACC_FINAL
    ensures WithAccess(mods, level) & ACC_SYNCHRONIZED == mods & ACC_SYNCHRONIZED
  {
  }
}
