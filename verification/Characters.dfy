// The character classes of the parsers, by code point.
module Characters {
  import Scanning
  import Versions
  import PyTypes
  import TomlText

  // semver/version.go: labels, digits and the white space of unicode.IsSpace.
  lemma VersionCharacters(c: char)
    ensures var n := c as int;
      && (Scanning.IsDigit(c) <==> 48 <= n <= 57)
      && (Versions.IsAlnum(c) <==> 48 <= n <= 57 || 65 <= n <= 90 || 97 <= n <= 122)
      && (Versions.IsLocalChar(c) <==> n == 46 || 48 <= n % 256 <= 57 || 65 <= n % 256 <= 90 || 97 <= n % 256 <= 122)
      && (Versions.IsSpace(c) <==>
            || n in {9, 10, 11, 12, 13, 32, 133, 160, 5760, 8232, 8233, 8239, 8287, 12288}
            || 8192 <= n <= 8202)
  {
  }

  // typemap/pytype.go: the letters of Latin-1, blanks, and ASCII white space.
  lemma PyCharacters(c: char)
    ensures var n := c as int;
      var letter := 65 <= n <= 90 || 97 <= n <= 122 || n in {170, 181, 186}
        || 192 <= n <= 214 || 216 <= n <= 246 || 248 <= n <= 255;
      && (PyTypes.IsLetter(c) <==> letter)
      && (PyTypes.IdentStart(c) <==> letter || n == 95)
      && (PyTypes.IdentCont(c) <==> letter || n == 95 || 48 <= n <= 57)
      && (PyTypes.NumberCont(c) <==> n == 46 || 48 <= n <= 57)
      && (PyTypes.IsSpace(c) <==> n in {9, 10, 11, 12, 13, 32})
      && (Scanning.Blank(c) <==> n in {9, 32})
  {
  }

  // toml/parser.go: white space, bare keys and the digits of numbers.
  lemma TomlCharacters(c: char)
    ensures var n := c as int;
      && (TomlText.White(c) <==> n in {9, 10, 13, 32})
      && (TomlText.KeyChar(c) <==> 65 <= n <= 90 || 97 <= n <= 122 || 48 <= n <= 57 || n == 95 || n == 45)
      && (TomlText.DigitOrBar(c) <==> 48 <= n <= 57 || n == 95)
  {
  }
}
