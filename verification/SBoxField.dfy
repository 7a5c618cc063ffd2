/** The program's table is the one of section 5.1.1 of FIPS 197: the reciprocal in a field of 256, then an affine map. */
module SBoxField {
  import opened SBoxTable

  /** Bytes as polynomials over bits: twice, reduced by x^8 + x^4 + x^3 + x + 1. */
  function Twice(a: bv8): bv8 {
    (a << 1) ^ if a & 0x80 == 0 then 0 else 0x1B
  }

  function Part(a: bv8, b: bv8): bv8 {
    if b & 1 == 0 then 0 else a
  }

  /** The product of two polynomials, as the sum of the multiples that the bits of the second ask for. */
  function Times(a: bv8, b: bv8): bv8 {
    var a1 := Twice(a);
    var a2 := Twice(a1);
    var a3 := Twice(a2);
    var a4 := Twice(a3);
    var a5 := Twice(a4);
    var a6 := Twice(a5);
    var a7 := Twice(a6);
    Part(a, b) ^ Part(a1, b >> 1) ^ Part(a2, b >> 2) ^ Part(a3, b >> 3)
    ^ Part(a4, b >> 4) ^ Part(a5, b >> 5) ^ Part(a6, b >> 6) ^ Part(a7, b >> 7)
  }

  /** Each bit of the result is the sum of five bits of the argument, and of one bit of 0x63. */
  function Affine(b: bv8): bv8 {
    b ^ ((b << 4) | (b >> 4)) ^ ((b << 3) | (b >> 5)) ^ ((b << 2) | (b >> 6)) ^ ((b << 1) | (b >> 7)) ^ 0x63
  }

  /** `r` is the reciprocal of `b`, or 0 if there is none, and the table has its affine image at `b`. */
  predicate Standard(b: bv8, r: bv8) {
    (if b == 0 then r == 0 else Times(b, r) == 1) && SubByte(b as int) == Affine(r) as int
  }

  lemma Row0(b: bv8) returns (r: bv8)
    requires 0 <= b < 16
    ensures Standard(b, r)
  {
    match b
    case 0 => r := 0; case 1 => r := 1; case 2 => r := 141; case 3 => r := 246;
    case 4 => r := 203; case 5 => r := 82; case 6 => r := 123; case 7 => r := 209;
    case 8 => r := 232; case 9 => r := 79; case 10 => r := 41; case 11 => r := 192;
    case 12 => r := 176; case 13 => r := 225; case 14 => r := 229; case _ => r := 199;
  }

  lemma Row1(b: bv8) returns (r: bv8)
    requires 16 <= b < 32
    ensures Standard(b, r)
  {
    match b
    case 16 => r := 116; case 17 => r := 180; case 18 => r := 170; case 19 => r := 75;
    case 20 => r := 153; case 21 => r := 43; case 22 => r := 96; case 23 => r := 95;
    case 24 => r := 88; case 25 => r := 63; case 26 => r := 253; case 27 => r := 204;
    case 28 => r := 255; case 29 => r := 64; case 30 => r := 238; case _ => r := 178;
  }

  lemma Row2(b: bv8) returns (r: bv8)
    requires 32 <= b < 48
    ensures Standard(b, r)
  {
    match b
    case 32 => r := 58; case 33 => r := 110; case 34 => r := 90; case 35 => r := 241;
    case 36 => r := 85; case 37 => r := 77; case 38 => r := 168; case 39 => r := 201;
    case 40 => r := 193; case 41 => r := 10; case 42 => r := 152; case 43 => r := 21;
    case 44 => r := 48; case 45 => r := 68; case 46 => r := 162; case _ => r := 194;
  }

  lemma Row3(b: bv8) returns (r: bv8)
    requires 48 <= b < 64
    ensures Standard(b, r)
  {
    match b
    case 48 => r := 44; case 49 => r := 69; case 50 => r := 146; case 51 => r := 108;
    case 52 => r := 243; case 53 => r := 57; case 54 => r := 102; case 55 => r := 66;
    case 56 => r := 242; case 57 => r := 53; case 58 => r := 32; case 59 => r := 111;
    case 60 => r := 119; case 61 => r := 187; case 62 => r := 89; case _ => r := 25;
  }

  lemma Row4(b: bv8) returns (r: bv8)
    requires 64 <= b < 80
    ensures Standard(b, r)
  {
    match b
    case 64 => r := 29; case 65 => r := 254; case 66 => r := 55; case 67 => r := 103;
    case 68 => r := 45; case 69 => r := 49; case 70 => r := 245; case 71 => r := 105;
    case 72 => r := 167; case 73 => r := 100; case 74 => r := 171; case 75 => r := 19;
    case 76 => r := 84; case 77 => r := 37; case 78 => r := 233; case _ => r := 9;
  }

  lemma Row5(b: bv8) returns (r: bv8)
    requires 80 <= b < 96
    ensures Standard(b, r)
  {
    match b
    case 80 => r := 237; case 81 => r := 92; case 82 => r := 5; case 83 => r := 202;
    case 84 => r := 76; case 85 => r := 36; case 86 => r := 135; case 87 => r := 191;
    case 88 => r := 24; case 89 => r := 62; case 90 => r := 34; case 91 => r := 240;
    case 92 => r := 81; case 93 => r := 236; case 94 => r := 97; case _ => r := 23;
  }

  lemma Row6(b: bv8) returns (r: bv8)
    requires 96 <= b < 112
    ensures Standard(b, r)
  {
    match b
    case 96 => r := 22; case 97 => r := 94; case 98 => r := 175; case 99 => r := 211;
    case 100 => r := 73; case 101 => r := 166; case 102 => r := 54; case 103 => r := 67;
    case 104 => r := 244; case 105 => r := 71; case 106 => r := 145; case 107 => r := 223;
    case 108 => r := 51; case 109 => r := 147; case 110 => r := 33; case _ => r := 59;
  }

  lemma Row7(b: bv8) returns (r: bv8)
    requires 112 <= b < 128
    ensures Standard(b, r)
  {
    match b
    case 112 => r := 121; case 113 => r := 183; case 114 => r := 151; case 115 => r := 133;
    case 116 => r := 16; case 117 => r := 181; case 118 => r := 186; case 119 => r := 60;
    case 120 => r := 182; case 121 => r := 112; case 122 => r := 208; case 123 => r := 6;
    case 124 => r := 161; case 125 => r := 250; case 126 => r := 129; case _ => r := 130;
  }

  lemma Row8(b: bv8) returns (r: bv8)
    requires 128 <= b < 144
    ensures Standard(b, r)
  {
    match b
    case 128 => r := 131; case 129 => r := 126; case 130 => r := 127; case 131 => r := 128;
    case 132 => r := 150; case 133 => r := 115; case 134 => r := 190; case 135 => r := 86;
    case 136 => r := 155; case 137 => r := 158; case 138 => r := 149; case 139 => r := 217;
    case 140 => r := 247; case 141 => r := 2; case 142 => r := 185; case _ => r := 164;
  }

  lemma Row9(b: bv8) returns (r: bv8)
    requires 144 <= b < 160
    ensures Standard(b, r)
  {
    match b
    case 144 => r := 222; case 145 => r := 106; case 146 => r := 50; case 147 => r := 109;
    case 148 => r := 216; case 149 => r := 138; case 150 => r := 132; case 151 => r := 114;
    case 152 => r := 42; case 153 => r := 20; case 154 => r := 159; case 155 => r := 136;
    case 156 => r := 249; case 157 => r := 220; case 158 => r := 137; case _ => r := 154;
  }

  lemma Row10(b: bv8) returns (r: bv8)
    requires 160 <= b < 176
    ensures Standard(b, r)
  {
    match b
    case 160 => r := 251; case 161 => r := 124; case 162 => r := 46; case 163 => r := 195;
    case 164 => r := 143; case 165 => r := 184; case 166 => r := 101; case 167 => r := 72;
    case 168 => r := 38; case 169 => r := 200; case 170 => r := 18; case 171 => r := 74;
    case 172 => r := 206; case 173 => r := 231; case 174 => r := 210; case _ => r := 98;
  }

  lemma Row11(b: bv8) returns (r: bv8)
    requires 176 <= b < 192
    ensures Standard(b, r)
  {
    match b
    case 176 => r := 12; case 177 => r := 224; case 178 => r := 31; case 179 => r := 239;
    case 180 => r := 17; case 181 => r := 117; case 182 => r := 120; case 183 => r := 113;
    case 184 => r := 165; case 185 => r := 142; case 186 => r := 118; case 187 => r := 61;
    case 188 => r := 189; case 189 => r := 188; case 190 => r := 134; case _ => r := 87;
  }

  lemma Row12(b: bv8) returns (r: bv8)
    requires 192 <= b < 208
    ensures Standard(b, r)
  {
    match b
    case 192 => r := 11; case 193 => r := 40; case 194 => r := 47; case 195 => r := 163;
    case 196 => r := 218; case 197 => r := 212; case 198 => r := 228; case 199 => r := 15;
    case 200 => r := 169; case 201 => r := 39; case 202 => r := 83; case 203 => r := 4;
    case 204 => r := 27; case 205 => r := 252; case 206 => r := 172; case _ => r := 230;
  }

  lemma Row13(b: bv8) returns (r: bv8)
    requires 208 <= b < 224
    ensures Standard(b, r)
  {
    match b
    case 208 => r := 122; case 209 => r := 7; case 210 => r := 174; case 211 => r := 99;
    case 212 => r := 197; case 213 => r := 219; case 214 => r := 226; case 215 => r := 234;
    case 216 => r := 148; case 217 => r := 139; case 218 => r := 196; case 219 => r := 213;
    case 220 => r := 157; case 221 => r := 248; case 222 => r := 144; case _ => r := 107;
  }

  lemma Row14(b: bv8) returns (r: bv8)
    requires 224 <= b < 240
    ensures Standard(b, r)
  {
    match b
    case 224 => r := 177; case 225 => r := 13; case 226 => r := 214; case 227 => r := 235;
    case 228 => r := 198; case 229 => r := 14; case 230 => r := 207; case 231 => r := 173;
    case 232 => r := 8; case 233 => r := 78; case 234 => r := 215; case 235 => r := 227;
    case 236 => r := 93; case 237 => r := 80; case 238 => r := 30; case _ => r := 179;
  }

  lemma Row15(b: bv8) returns (r: bv8)
    requires 240 <= b
    ensures Standard(b, r)
  {
    match b
    case 240 => r := 91; case 241 => r := 35; case 242 => r := 56; case 243 => r := 52;
    case 244 => r := 104; case 245 => r := 70; case 246 => r := 3; case 247 => r := 140;
    case 248 => r := 221; case 249 => r := 156; case 250 => r := 125; case 251 => r := 160;
    case 252 => r := 205; case 253 => r := 26; case 254 => r := 65; case _ => r := 28;
  }

  /** Every entry of the table is what the standard says. */
  lemma {:induction false} SubByteStandard(b: bv8) returns (r: bv8)
    ensures if b == 0 then r == 0 else Times(b, r) == 1
    ensures SubByte(b as int) == Affine(r) as int
  {
    if b < 16 { r := Row0(b); }
    else if b < 32 { r := Row1(b); }
    else if b < 48 { r := Row2(b); }
    else if b < 64 { r := Row3(b); }
    else if b < 80 { r := Row4(b); }
    else if b < 96 { r := Row5(b); }
    else if b < 112 { r := Row6(b); }
    else if b < 128 { r := Row7(b); }
    else if b < 144 { r := Row8(b); }
    else if b < 160 { r := Row9(b); }
    else if b < 176 { r := Row10(b); }
    else if b < 192 { r := Row11(b); }
    else if b < 208 { r := Row12(b); }
    else if b < 224 { r := Row13(b); }
    else if b < 240 { r := Row14(b); }
    else { r := Row15(b); }
  }
}
