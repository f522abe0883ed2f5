/** Character data this model needs: Unicode compatibility decomposition (NFKD) of
    U+00A0..U+017F, Python's `str.lower` of U+0080..U+017F, and the decimal digits.
    The entries are those of the Unicode Character Database, version 15.0.0; a character not
    listed maps to itself. */
module UnicodeTables {

  /** The NFKD decomposition of a character in U+00A0..U+017F that does not decompose to itself. */
  function NfkdEntry(c: char): string {
    match c
    case '\U{A0}' => " "
    case '\U{A8}' => " \U{308}"
    case '\U{AA}' => "a"
    case '\U{AF}' => " \U{304}"
    case '\U{B2}' => "2"
    case '\U{B3}' => "3"
    case '\U{B4}' => " \U{301}"
    case '\U{B5}' => "\U{3BC}"
    case '\U{B8}' => " \U{327}"
    case '\U{B9}' => "1"
    case '\U{BA}' => "o"
    case '\U{BC}' => "1\U{2044}4"
    case '\U{BD}' => "1\U{2044}2"
    case '\U{BE}' => "3\U{2044}4"
    case '\U{C0}' => "A\U{300}"
    case '\U{C1}' => "A\U{301}"
    case '\U{C2}' => "A\U{302}"
    case '\U{C3}' => "A\U{303}"
    case '\U{C4}' => "A\U{308}"
    case '\U{C5}' => "A\U{30A}"
    case '\U{C7}' => "C\U{327}"
    case '\U{C8}' => "E\U{300}"
    case '\U{C9}' => "E\U{301}"
    case '\U{CA}' => "E\U{302}"
    case '\U{CB}' => "E\U{308}"
    case '\U{CC}' => "I\U{300}"
    case '\U{CD}' => "I\U{301}"
    case '\U{CE}' => "I\U{302}"
    case '\U{CF}' => "I\U{308}"
    case '\U{D1}' => "N\U{303}"
    case '\U{D2}' => "O\U{300}"
    case '\U{D3}' => "O\U{301}"
    case '\U{D4}' => "O\U{302}"
    case '\U{D5}' => "O\U{303}"
    case '\U{D6}' => "O\U{308}"
    case '\U{D9}' => "U\U{300}"
    case '\U{DA}' => "U\U{301}"
    case '\U{DB}' => "U\U{302}"
    case '\U{DC}' => "U\U{308}"
    case '\U{DD}' => "Y\U{301}"
    case '\U{E0}' => "a\U{300}"
    case '\U{E1}' => "a\U{301}"
    case '\U{E2}' => "a\U{302}"
    case '\U{E3}' => "a\U{303}"
    case '\U{E4}' => "a\U{308}"
    case '\U{E5}' => "a\U{30A}"
    case '\U{E7}' => "c\U{327}"
    case '\U{E8}' => "e\U{300}"
    case '\U{E9}' => "e\U{301}"
    case '\U{EA}' => "e\U{302}"
    case '\U{EB}' => "e\U{308}"
    case '\U{EC}' => "i\U{300}"
    case '\U{ED}' => "i\U{301}"
    case '\U{EE}' => "i\U{302}"
    case '\U{EF}' => "i\U{308}"
    case '\U{F1}' => "n\U{303}"
    case '\U{F2}' => "o\U{300}"
    case '\U{F3}' => "o\U{301}"
    case '\U{F4}' => "o\U{302}"
    case '\U{F5}' => "o\U{303}"
    case '\U{F6}' => "o\U{308}"
    case '\U{F9}' => "u\U{300}"
    case '\U{FA}' => "u\U{301}"
    case '\U{FB}' => "u\U{302}"
    case '\U{FC}' => "u\U{308}"
    case '\U{FD}' => "y\U{301}"
    case '\U{FF}' => "y\U{308}"
    case '\U{100}' => "A\U{304}"
    case '\U{101}' => "a\U{304}"
    case '\U{102}' => "A\U{306}"
    case '\U{103}' => "a\U{306}"
    case '\U{104}' => "A\U{328}"
    case '\U{105}' => "a\U{328}"
    case '\U{106}' => "C\U{301}"
    case '\U{107}' => "c\U{301}"
    case '\U{108}' => "C\U{302}"
    case '\U{109}' => "c\U{302}"
    case '\U{10A}' => "C\U{307}"
    case '\U{10B}' => "c\U{307}"
    case '\U{10C}' => "C\U{30C}"
    case '\U{10D}' => "c\U{30C}"
    case '\U{10E}' => "D\U{30C}"
    case '\U{10F}' => "d\U{30C}"
    case '\U{112}' => "E\U{304}"
    case '\U{113}' => "e\U{304}"
    case '\U{114}' => "E\U{306}"
    case '\U{115}' => "e\U{306}"
    case '\U{116}' => "E\U{307}"
    case '\U{117}' => "e\U{307}"
    case '\U{118}' => "E\U{328}"
    case '\U{119}' => "e\U{328}"
    case '\U{11A}' => "E\U{30C}"
    case '\U{11B}' => "e\U{30C}"
    case '\U{11C}' => "G\U{302}"
    case '\U{11D}' => "g\U{302}"
    case '\U{11E}' => "G\U{306}"
    case '\U{11F}' => "g\U{306}"
    case '\U{120}' => "G\U{307}"
    case '\U{121}' => "g\U{307}"
    case '\U{122}' => "G\U{327}"
    case '\U{123}' => "g\U{327}"
    case '\U{124}' => "H\U{302}"
    case '\U{125}' => "h\U{302}"
    case '\U{128}' => "I\U{303}"
    case '\U{129}' => "i\U{303}"
    case '\U{12A}' => "I\U{304}"
    case '\U{12B}' => "i\U{304}"
    case '\U{12C}' => "I\U{306}"
    case '\U{12D}' => "i\U{306}"
    case '\U{12E}' => "I\U{328}"
    case '\U{12F}' => "i\U{328}"
    case '\U{130}' => "I\U{307}"
    case '\U{132}' => "IJ"
    case '\U{133}' => "ij"
    case '\U{134}' => "J\U{302}"
    case '\U{135}' => "j\U{302}"
    case '\U{136}' => "K\U{327}"
    case '\U{137}' => "k\U{327}"
    case '\U{139}' => "L\U{301}"
    case '\U{13A}' => "l\U{301}"
    case '\U{13B}' => "L\U{327}"
    case '\U{13C}' => "l\U{327}"
    case '\U{13D}' => "L\U{30C}"
    case '\U{13E}' => "l\U{30C}"
    case '\U{13F}' => "L\U{B7}"
    case '\U{140}' => "l\U{B7}"
    case '\U{143}' => "N\U{301}"
    case '\U{144}' => "n\U{301}"
    case '\U{145}' => "N\U{327}"
    case '\U{146}' => "n\U{327}"
    case '\U{147}' => "N\U{30C}"
    case '\U{148}' => "n\U{30C}"
    case '\U{149}' => "\U{2BC}n"
    case '\U{14C}' => "O\U{304}"
    case '\U{14D}' => "o\U{304}"
    case '\U{14E}' => "O\U{306}"
    case '\U{14F}' => "o\U{306}"
    case '\U{150}' => "O\U{30B}"
    case '\U{151}' => "o\U{30B}"
    case '\U{154}' => "R\U{301}"
    case '\U{155}' => "r\U{301}"
    case '\U{156}' => "R\U{327}"
    case '\U{157}' => "r\U{327}"
    case '\U{158}' => "R\U{30C}"
    case '\U{159}' => "r\U{30C}"
    case '\U{15A}' => "S\U{301}"
    case '\U{15B}' => "s\U{301}"
    case '\U{15C}' => "S\U{302}"
    case '\U{15D}' => "s\U{302}"
    case '\U{15E}' => "S\U{327}"
    case '\U{15F}' => "s\U{327}"
    case '\U{160}' => "S\U{30C}"
    case '\U{161}' => "s\U{30C}"
    case '\U{162}' => "T\U{327}"
    case '\U{163}' => "t\U{327}"
    case '\U{164}' => "T\U{30C}"
    case '\U{165}' => "t\U{30C}"
    case '\U{168}' => "U\U{303}"
    case '\U{169}' => "u\U{303}"
    case '\U{16A}' => "U\U{304}"
    case '\U{16B}' => "u\U{304}"
    case '\U{16C}' => "U\U{306}"
    case '\U{16D}' => "u\U{306}"
    case '\U{16E}' => "U\U{30A}"
    case '\U{16F}' => "u\U{30A}"
    case '\U{170}' => "U\U{30B}"
    case '\U{171}' => "u\U{30B}"
    case '\U{172}' => "U\U{328}"
    case '\U{173}' => "u\U{328}"
    case '\U{174}' => "W\U{302}"
    case '\U{175}' => "w\U{302}"
    case '\U{176}' => "Y\U{302}"
    case '\U{177}' => "y\U{302}"
    case '\U{178}' => "Y\U{308}"
    case '\U{179}' => "Z\U{301}"
    case '\U{17A}' => "z\U{301}"
    case '\U{17B}' => "Z\U{307}"
    case '\U{17C}' => "z\U{307}"
    case '\U{17D}' => "Z\U{30C}"
    case '\U{17E}' => "z\U{30C}"
    case '\U{17F}' => "s"
    case _ => [c]
  }

  /** Python's `c.lower()` for a character in U+0080..U+017F that is not its own lower case. */
  function LowerEntry(c: char): string {
    match c
    case '\U{C0}' => "\U{E0}"
    case '\U{C1}' => "\U{E1}"
    case '\U{C2}' => "\U{E2}"
    case '\U{C3}' => "\U{E3}"
    case '\U{C4}' => "\U{E4}"
    case '\U{C5}' => "\U{E5}"
    case '\U{C6}' => "\U{E6}"
    case '\U{C7}' => "\U{E7}"
    case '\U{C8}' => "\U{E8}"
    case '\U{C9}' => "\U{E9}"
    case '\U{CA}' => "\U{EA}"
    case '\U{CB}' => "\U{EB}"
    case '\U{CC}' => "\U{EC}"
    case '\U{CD}' => "\U{ED}"
    case '\U{CE}' => "\U{EE}"
    case '\U{CF}' => "\U{EF}"
    case '\U{D0}' => "\U{F0}"
    case '\U{D1}' => "\U{F1}"
    case '\U{D2}' => "\U{F2}"
    case '\U{D3}' => "\U{F3}"
    case '\U{D4}' => "\U{F4}"
    case '\U{D5}' => "\U{F5}"
    case '\U{D6}' => "\U{F6}"
    case '\U{D8}' => "\U{F8}"
    case '\U{D9}' => "\U{F9}"
    case '\U{DA}' => "\U{FA}"
    case '\U{DB}' => "\U{FB}"
    case '\U{DC}' => "\U{FC}"
    case '\U{DD}' => "\U{FD}"
    case '\U{DE}' => "\U{FE}"
    case '\U{100}' => "\U{101}"
    case '\U{102}' => "\U{103}"
    case '\U{104}' => "\U{105}"
    case '\U{106}' => "\U{107}"
    case '\U{108}' => "\U{109}"
    case '\U{10A}' => "\U{10B}"
    case '\U{10C}' => "\U{10D}"
    case '\U{10E}' => "\U{10F}"
    case '\U{110}' => "\U{111}"
    case '\U{112}' => "\U{113}"
    case '\U{114}' => "\U{115}"
    case '\U{116}' => "\U{117}"
    case '\U{118}' => "\U{119}"
    case '\U{11A}' => "\U{11B}"
    case '\U{11C}' => "\U{11D}"
    case '\U{11E}' => "\U{11F}"
    case '\U{120}' => "\U{121}"
    case '\U{122}' => "\U{123}"
    case '\U{124}' => "\U{125}"
    case '\U{126}' => "\U{127}"
    case '\U{128}' => "\U{129}"
    case '\U{12A}' => "\U{12B}"
    case '\U{12C}' => "\U{12D}"
    case '\U{12E}' => "\U{12F}"
    case '\U{130}' => "i\U{307}"
    case '\U{132}' => "\U{133}"
    case '\U{134}' => "\U{135}"
    case '\U{136}' => "\U{137}"
    case '\U{139}' => "\U{13A}"
    case '\U{13B}' => "\U{13C}"
    case '\U{13D}' => "\U{13E}"
    case '\U{13F}' => "\U{140}"
    case '\U{141}' => "\U{142}"
    case '\U{143}' => "\U{144}"
    case '\U{145}' => "\U{146}"
    case '\U{147}' => "\U{148}"
    case '\U{14A}' => "\U{14B}"
    case '\U{14C}' => "\U{14D}"
    case '\U{14E}' => "\U{14F}"
    case '\U{150}' => "\U{151}"
    case '\U{152}' => "\U{153}"
    case '\U{154}' => "\U{155}"
    case '\U{156}' => "\U{157}"
    case '\U{158}' => "\U{159}"
    case '\U{15A}' => "\U{15B}"
    case '\U{15C}' => "\U{15D}"
    case '\U{15E}' => "\U{15F}"
    case '\U{160}' => "\U{161}"
    case '\U{162}' => "\U{163}"
    case '\U{164}' => "\U{165}"
    case '\U{166}' => "\U{167}"
    case '\U{168}' => "\U{169}"
    case '\U{16A}' => "\U{16B}"
    case '\U{16C}' => "\U{16D}"
    case '\U{16E}' => "\U{16F}"
    case '\U{170}' => "\U{171}"
    case '\U{172}' => "\U{173}"
    case '\U{174}' => "\U{175}"
    case '\U{176}' => "\U{177}"
    case '\U{178}' => "\U{FF}"
    case '\U{179}' => "\U{17A}"
    case '\U{17B}' => "\U{17C}"
    case '\U{17D}' => "\U{17E}"
    case _ => [c]
  }

  /** The zero of the run of decimal digits (general category Nd) that holds code point `n`, or -1
      when `n` is not a decimal digit. Each run holds the digits zero to nine at ten consecutive
      code points; together the runs are exactly the characters Python's `\d` and `str.isdecimal`
      accept and `int` gives a value to. */
  function DecimalZeroOf(n: int): (z: int)
    ensures z == -1 || z <= n < z + 10
  {
    if n < 0 then -1
    else if n < 0x30 then -1 else if n < 0x3A then 0x30
    else if n < 0x660 then -1 else if n < 0x66A then 0x660
    else if n < 0x6F0 then -1 else if n < 0x6FA then 0x6F0
    else if n < 0x7C0 then -1 else if n < 0x7CA then 0x7C0
    else if n < 0x966 then -1 else if n < 0x970 then 0x966
    else if n < 0x9E6 then -1 else if n < 0x9F0 then 0x9E6
    else if n < 0xA66 then -1 else if n < 0xA70 then 0xA66
    else if n < 0xAE6 then -1 else if n < 0xAF0 then 0xAE6
    else if n < 0xB66 then -1 else if n < 0xB70 then 0xB66
    else if n < 0xBE6 then -1 else if n < 0xBF0 then 0xBE6
    else if n < 0xC66 then -1 else if n < 0xC70 then 0xC66
    else if n < 0xCE6 then -1 else if n < 0xCF0 then 0xCE6
    else if n < 0xD66 then -1 else if n < 0xD70 then 0xD66
    else if n < 0xDE6 then -1 else if n < 0xDF0 then 0xDE6
    else if n < 0xE50 then -1 else if n < 0xE5A then 0xE50
    else if n < 0xED0 then -1 else if n < 0xEDA then 0xED0
    else if n < 0xF20 then -1 else if n < 0xF2A then 0xF20
    else if n < 0x1040 then -1 else if n < 0x104A then 0x1040
    else if n < 0x1090 then -1 else if n < 0x109A then 0x1090
    else if n < 0x17E0 then -1 else if n < 0x17EA then 0x17E0
    else if n < 0x1810 then -1 else if n < 0x181A then 0x1810
    else if n < 0x1946 then -1 else if n < 0x1950 then 0x1946
    else if n < 0x19D0 then -1 else if n < 0x19DA then 0x19D0
    else if n < 0x1A80 then -1 else if n < 0x1A8A then 0x1A80
    else if n < 0x1A90 then -1 else if n < 0x1A9A then 0x1A90
    else if n < 0x1B50 then -1 else if n < 0x1B5A then 0x1B50
    else if n < 0x1BB0 then -1 else if n < 0x1BBA then 0x1BB0
    else if n < 0x1C40 then -1 else if n < 0x1C4A then 0x1C40
    else if n < 0x1C50 then -1 else if n < 0x1C5A then 0x1C50
    else if n < 0xA620 then -1 else if n < 0xA62A then 0xA620
    else if n < 0xA8D0 then -1 else if n < 0xA8DA then 0xA8D0
    else if n < 0xA900 then -1 else if n < 0xA90A then 0xA900
    else if n < 0xA9D0 then -1 else if n < 0xA9DA then 0xA9D0
    else if n < 0xA9F0 then -1 else if n < 0xA9FA then 0xA9F0
    else if n < 0xAA50 then -1 else if n < 0xAA5A then 0xAA50
    else if n < 0xABF0 then -1 else if n < 0xABFA then 0xABF0
    else if n < 0xFF10 then -1 else if n < 0xFF1A then 0xFF10
    else if n < 0x104A0 then -1 else if n < 0x104AA then 0x104A0
    else if n < 0x10D30 then -1 else if n < 0x10D3A then 0x10D30
    else if n < 0x11066 then -1 else if n < 0x11070 then 0x11066
    else if n < 0x110F0 then -1 else if n < 0x110FA then 0x110F0
    else if n < 0x11136 then -1 else if n < 0x11140 then 0x11136
    else if n < 0x111D0 then -1 else if n < 0x111DA then 0x111D0
    else if n < 0x112F0 then -1 else if n < 0x112FA then 0x112F0
    else if n < 0x11450 then -1 else if n < 0x1145A then 0x11450
    else if n < 0x114D0 then -1 else if n < 0x114DA then 0x114D0
    else if n < 0x11650 then -1 else if n < 0x1165A then 0x11650
    else if n < 0x116C0 then -1 else if n < 0x116CA then 0x116C0
    else if n < 0x11730 then -1 else if n < 0x1173A then 0x11730
    else if n < 0x118E0 then -1 else if n < 0x118EA then 0x118E0
    else if n < 0x11950 then -1 else if n < 0x1195A then 0x11950
    else if n < 0x11C50 then -1 else if n < 0x11C5A then 0x11C50
    else if n < 0x11D50 then -1 else if n < 0x11D5A then 0x11D50
    else if n < 0x11DA0 then -1 else if n < 0x11DAA then 0x11DA0
    else if n < 0x11F50 then -1 else if n < 0x11F5A then 0x11F50
    else if n < 0x16A60 then -1 else if n < 0x16A6A then 0x16A60
    else if n < 0x16AC0 then -1 else if n < 0x16ACA then 0x16AC0
    else if n < 0x16B50 then -1 else if n < 0x16B5A then 0x16B50
    else if n < 0x1D7CE then -1 else if n < 0x1D7D8 then 0x1D7CE
    else if n < 0x1D7D8 then -1 else if n < 0x1D7E2 then 0x1D7D8
    else if n < 0x1D7E2 then -1 else if n < 0x1D7EC then 0x1D7E2
    else if n < 0x1D7EC then -1 else if n < 0x1D7F6 then 0x1D7EC
    else if n < 0x1D7F6 then -1 else if n < 0x1D800 then 0x1D7F6
    else if n < 0x1E140 then -1 else if n < 0x1E14A then 0x1E140
    else if n < 0x1E2F0 then -1 else if n < 0x1E2FA then 0x1E2F0
    else if n < 0x1E4F0 then -1 else if n < 0x1E4FA then 0x1E4F0
    else if n < 0x1E950 then -1 else if n < 0x1E95A then 0x1E950
    else if n < 0x1FBF0 then -1 else if n < 0x1FBFA then 0x1FBF0
    else -1
  }
}
