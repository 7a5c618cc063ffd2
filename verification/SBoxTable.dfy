/** The table of the program, and its inverse. */
module SBoxTable {
  import opened Encryption

  type Byte = v: int | IsByte(v)

  const SBOX_0: seq<int> := [99, 124, 119, 123, 242, 107, 111, 197, 48, 1, 103, 43, 254, 215, 171, 118]
  const SBOX_1: seq<int> := [202, 130, 201, 125, 250, 89, 71, 240, 173, 212, 162, 175, 156, 164, 114, 192]
  const SBOX_2: seq<int> := [183, 253, 147, 38, 54, 63, 247, 204, 52, 165, 229, 241, 113, 216, 49, 21]
  const SBOX_3: seq<int> := [4, 199, 35, 195, 24, 150, 5, 154, 7, 18, 128, 226, 235, 39, 178, 117]
  const SBOX_4: seq<int> := [9, 131, 44, 26, 27, 110, 90, 160, 82, 59, 214, 179, 41, 227, 47, 132]
  const SBOX_5: seq<int> := [83, 209, 0, 237, 32, 252, 177, 91, 106, 203, 190, 57, 74, 76, 88, 207]
  const SBOX_6: seq<int> := [208, 239, 170, 251, 67, 77, 51, 133, 69, 249, 2, 127, 80, 60, 159, 168]
  const SBOX_7: seq<int> := [81, 163, 64, 143, 146, 157, 56, 245, 188, 182, 218, 33, 16, 255, 243, 210]
  const SBOX_8: seq<int> := [205, 12, 19, 236, 95, 151, 68, 23, 196, 167, 126, 61, 100, 93, 25, 115]
  const SBOX_9: seq<int> := [96, 129, 79, 220, 34, 42, 144, 136, 70, 238, 184, 20, 222, 94, 11, 219]
  const SBOX_10: seq<int> := [224, 50, 58, 10, 73, 6, 36, 92, 194, 211, 172, 98, 145, 149, 228, 121]
  const SBOX_11: seq<int> := [231, 200, 55, 109, 141, 213, 78, 169, 108, 86, 244, 234, 101, 122, 174, 8]
  const SBOX_12: seq<int> := [186, 120, 37, 46, 28, 166, 180, 198, 232, 221, 116, 31, 75, 189, 139, 138]
  const SBOX_13: seq<int> := [112, 62, 181, 102, 72, 3, 246, 14, 97, 53, 87, 185, 134, 193, 29, 158]
  const SBOX_14: seq<int> := [225, 248, 152, 17, 105, 217, 142, 148, 155, 30, 135, 233, 206, 85, 40, 223]
  const SBOX_15: seq<int> := [140, 161, 137, 13, 191, 230, 66, 104, 65, 153, 45, 15, 176, 84, 187, 22]

  function SubByteRow(r: int): (s: seq<int>)
    ensures |s| == 16
  {
    match r
    case 0 => SBOX_0
    case 1 => SBOX_1
    case 2 => SBOX_2
    case 3 => SBOX_3
    case 4 => SBOX_4
    case 5 => SBOX_5
    case 6 => SBOX_6
    case 7 => SBOX_7
    case 8 => SBOX_8
    case 9 => SBOX_9
    case 10 => SBOX_10
    case 11 => SBOX_11
    case 12 => SBOX_12
    case 13 => SBOX_13
    case 14 => SBOX_14
    case _ => SBOX_15
  }

  /** The S-box, sixteen entries a row. */
  function SubByte(v: int): int
    requires IsByte(v)
  {
    SubByteRow(v / 16)[v % 16]
  }

  const INVERSE_0: seq<Byte> := [82, 9, 106, 213, 48, 54, 165, 56, 191, 64, 163, 158, 129, 243, 215, 251]
  const INVERSE_1: seq<Byte> := [124, 227, 57, 130, 155, 47, 255, 135, 52, 142, 67, 68, 196, 222, 233, 203]
  const INVERSE_2: seq<Byte> := [84, 123, 148, 50, 166, 194, 35, 61, 238, 76, 149, 11, 66, 250, 195, 78]
  const INVERSE_3: seq<Byte> := [8, 46, 161, 102, 40, 217, 36, 178, 118, 91, 162, 73, 109, 139, 209, 37]
  const INVERSE_4: seq<Byte> := [114, 248, 246, 100, 134, 104, 152, 22, 212, 164, 92, 204, 93, 101, 182, 146]
  const INVERSE_5: seq<Byte> := [108, 112, 72, 80, 253, 237, 185, 218, 94, 21, 70, 87, 167, 141, 157, 132]
  const INVERSE_6: seq<Byte> := [144, 216, 171, 0, 140, 188, 211, 10, 247, 228, 88, 5, 184, 179, 69, 6]
  const INVERSE_7: seq<Byte> := [208, 44, 30, 143, 202, 63, 15, 2, 193, 175, 189, 3, 1, 19, 138, 107]
  const INVERSE_8: seq<Byte> := [58, 145, 17, 65, 79, 103, 220, 234, 151, 242, 207, 206, 240, 180, 230, 115]
  const INVERSE_9: seq<Byte> := [150, 172, 116, 34, 231, 173, 53, 133, 226, 249, 55, 232, 28, 117, 223, 110]
  const INVERSE_10: seq<Byte> := [71, 241, 26, 113, 29, 41, 197, 137, 111, 183, 98, 14, 170, 24, 190, 27]
  const INVERSE_11: seq<Byte> := [252, 86, 62, 75, 198, 210, 121, 32, 154, 219, 192, 254, 120, 205, 90, 244]
  const INVERSE_12: seq<Byte> := [31, 221, 168, 51, 136, 7, 199, 49, 177, 18, 16, 89, 39, 128, 236, 95]
  const INVERSE_13: seq<Byte> := [96, 81, 127, 169, 25, 181, 74, 13, 45, 229, 122, 159, 147, 201, 156, 239]
  const INVERSE_14: seq<Byte> := [160, 224, 59, 77, 174, 42, 245, 176, 200, 235, 187, 60, 131, 83, 153, 97]
  const INVERSE_15: seq<Byte> := [23, 43, 4, 126, 186, 119, 214, 38, 225, 105, 20, 99, 85, 33, 12, 125]

  function InvSubByteRow(r: int): (s: seq<Byte>)
    ensures |s| == 16
  {
    match r
    case 0 => INVERSE_0
    case 1 => INVERSE_1
    case 2 => INVERSE_2
    case 3 => INVERSE_3
    case 4 => INVERSE_4
    case 5 => INVERSE_5
    case 6 => INVERSE_6
    case 7 => INVERSE_7
    case 8 => INVERSE_8
    case 9 => INVERSE_9
    case 10 => INVERSE_10
    case 11 => INVERSE_11
    case 12 => INVERSE_12
    case 13 => INVERSE_13
    case 14 => INVERSE_14
    case _ => INVERSE_15
  }

  /** The S-box read backwards. */
  function InvSubByte(v: int): Byte
    requires IsByte(v)
  {
    InvSubByteRow(v / 16)[v % 16]
  }

  lemma {:induction false} Undone0(v: int)
    requires 0 <= v < 16
    ensures IsByte(SubByte(v)) && InvSubByte(SubByte(v)) == v
  {
  }

  lemma {:induction false} Undone1(v: int)
    requires 16 <= v < 32
    ensures IsByte(SubByte(v)) && InvSubByte(SubByte(v)) == v
  {
  }

  lemma {:induction false} Undone2(v: int)
    requires 32 <= v < 48
    ensures IsByte(SubByte(v)) && InvSubByte(SubByte(v)) == v
  {
  }

  lemma {:induction false} Undone3(v: int)
    requires 48 <= v < 64
    ensures IsByte(SubByte(v)) && InvSubByte(SubByte(v)) == v
  {
  }

  lemma {:induction false} Undone4(v: int)
    requires 64 <= v < 80
    ensures IsByte(SubByte(v)) && InvSubByte(SubByte(v)) == v
  {
  }

  lemma {:induction false} Undone5(v: int)
    requires 80 <= v < 96
    ensures IsByte(SubByte(v)) && InvSubByte(SubByte(v)) == v
  {
  }

  lemma {:induction false} Undone6(v: int)
    requires 96 <= v < 112
    ensures IsByte(SubByte(v)) && InvSubByte(SubByte(v)) == v
  {
  }

  lemma {:induction false} Undone7(v: int)
    requires 112 <= v < 128
    ensures IsByte(SubByte(v)) && InvSubByte(SubByte(v)) == v
  {
  }

  lemma {:induction false} Undone8(v: int)
    requires 128 <= v < 144
    ensures IsByte(SubByte(v)) && InvSubByte(SubByte(v)) == v
  {
  }

  lemma {:induction false} Undone9(v: int)
    requires 144 <= v < 160
    ensures IsByte(SubByte(v)) && InvSubByte(SubByte(v)) == v
  {
  }

  lemma {:induction false} Undone10(v: int)
    requires 160 <= v < 176
    ensures IsByte(SubByte(v)) && InvSubByte(SubByte(v)) == v
  {
  }

  lemma {:induction false} Undone11(v: int)
    requires 176 <= v < 192
    ensures IsByte(SubByte(v)) && InvSubByte(SubByte(v)) == v
  {
  }

  lemma {:induction false} Undone12(v: int)
    requires 192 <= v < 208
    ensures IsByte(SubByte(v)) && InvSubByte(SubByte(v)) == v
  {
  }

  lemma {:induction false} Undone13(v: int)
    requires 208 <= v < 224
    ensures IsByte(SubByte(v)) && InvSubByte(SubByte(v)) == v
  {
  }

  lemma {:induction false} Undone14(v: int)
    requires 224 <= v < 240
    ensures IsByte(SubByte(v)) && InvSubByte(SubByte(v)) == v
  {
  }

  lemma {:induction false} Undone15(v: int)
    requires 240 <= v < 256
    ensures IsByte(SubByte(v)) && InvSubByte(SubByte(v)) == v
  {
  }

  /** The S-box is a permutation of the bytes. */
  lemma {:induction false} SubByteUndone(v: int)
    requires IsByte(v)
    ensures IsByte(SubByte(v)) && InvSubByte(SubByte(v)) == v
  {
    match v / 16
    case 0 => Undone0(v);
    case 1 => Undone1(v);
    case 2 => Undone2(v);
    case 3 => Undone3(v);
    case 4 => Undone4(v);
    case 5 => Undone5(v);
    case 6 => Undone6(v);
    case 7 => Undone7(v);
    case 8 => Undone8(v);
    case 9 => Undone9(v);
    case 10 => Undone10(v);
    case 11 => Undone11(v);
    case 12 => Undone12(v);
    case 13 => Undone13(v);
    case 14 => Undone14(v);
    case _ => Undone15(v);
  }

  function SBox(): (t: seq<int>)
    ensures |t| == BYTES && forall v :: 0 <= v < BYTES ==> t[v] == SubByte(v)
  {
    seq(BYTES, v requires 0 <= v < BYTES => SubByte(v))
  }

  function InverseSBox(): (t: seq<int>)
    ensures |t| == BYTES && forall v :: 0 <= v < BYTES ==> t[v] == InvSubByte(v)
  {
    seq(BYTES, v requires 0 <= v < BYTES => InvSubByte(v))
  }

  /** So encryption with the program's own table can always be undone. */
  lemma {:induction false} ProgramInvertible(m: Matrix, k: nat)
    requires Square(m)
    ensures Undoes(InverseSBox(), SBox()) && Decrypted(Encrypted(m, SBox(), k), InverseSBox(), k) == m
  {
    forall v | 0 <= v < BYTES
      ensures IsByte(SubByte(v)) && InvSubByte(SubByte(v)) == v && IsByte(InvSubByte(v))
    {
      SubByteUndone(v);
    }
    EncryptionInvertible(m, SBox(), InverseSBox(), k);
  }
}
