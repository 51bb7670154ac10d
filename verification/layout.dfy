/**
 * The keyboard-layout mapper: two fixed character tables (English QWERTY to
 * Ukrainian ЙЦУКЕН and back) applied one character at a time, each character
 * lower-cased before the lookup and passed through unchanged when it is not a key.
 */
module Layout {
  import opened Wrappers

  /** The English-layout to Ukrainian-layout table (`en_to_ua`): the value stored under a key, if any. */
  function EnToUa(k: char): (v: Option<char>)
    ensures 'a' <= k <= 'z' ==> v.Some?
    ensures v.Some? ==> ToLower(k) == k && ToLower(v.value) == v.value && v.value != k
  {
    match k
    case 'q' => Some('й') case 'w' => Some('ц') case 'e' => Some('у') case 'r' => Some('к') case 't' => Some('е') case 'y' => Some('н')
    case 'u' => Some('г') case 'i' => Some('ш') case 'o' => Some('щ') case 'p' => Some('з') case '[' => Some('х') case ']' => Some('ї')
    case 'a' => Some('ф') case 's' => Some('і') case 'd' => Some('в') case 'f' => Some('а') case 'g' => Some('п') case 'h' => Some('р')
    case 'j' => Some('о') case 'k' => Some('л') case 'l' => Some('д') case ';' => Some('ж') case '\'' => Some('є') case '\\' => Some('ґ')
    case 'z' => Some('я') case 'x' => Some('ч') case 'c' => Some('с') case 'v' => Some('м') case 'b' => Some('и') case 'n' => Some('т')
    case 'm' => Some('ь') case ',' => Some('б') case '.' => Some('ю') case '/' => Some('.')
    case _ => None
  }

  /** The Ukrainian-layout to English-layout table (`ua_to_en`). */
  function UaToEn(k: char): (v: Option<char>)
    ensures IsUkrainianLetter(k) ==> v.Some?
    ensures v.Some? ==> ToLower(k) == k && ToLower(v.value) == v.value && v.value != k
  {
    match k
    case 'й' => Some('q') case 'ц' => Some('w') case 'у' => Some('e') case 'к' => Some('r') case 'е' => Some('t') case 'н' => Some('y')
    case 'г' => Some('u') case 'ш' => Some('i') case 'щ' => Some('o') case 'з' => Some('p') case 'х' => Some('[') case 'ї' => Some(']')
    case 'ф' => Some('a') case 'і' => Some('s') case 'в' => Some('d') case 'а' => Some('f') case 'п' => Some('g') case 'р' => Some('h')
    case 'о' => Some('j') case 'л' => Some('k') case 'д' => Some('l') case 'ж' => Some(';') case 'є' => Some('\'') case 'ґ' => Some('\\')
    case 'я' => Some('z') case 'ч' => Some('x') case 'с' => Some('c') case 'м' => Some('v') case 'и' => Some('b') case 'т' => Some('n')
    case 'ь' => Some('m') case 'б' => Some(',') case 'ю' => Some('.') case '.' => Some('/')
    case _ => None
  }

  /** The 33 lower-case letters of the Ukrainian alphabet: а-я without ъ, ы, э, plus ґ, є, і, ї. */
  predicate IsUkrainianLetter(c: char)
  {
    ('а' <= c <= 'я' && c != 'ъ' && c != 'ы' && c != 'э') || c == 'ґ' || c == 'є' || c == 'і' || c == 'ї'
  }

  /** The two tables. */
  datatype Table = EnUa | UaEn

  /** `table.get(k)`. */
  function Get(table: Table, k: char): Option<char>
  {
    match table
    case EnUa => EnToUa(k)
    case UaEn => UaToEn(k)
  }

  /**
   * Lower-casing of one character as far as the lookup can tell: ASCII A-Z,
   * the Cyrillic capitals U+0400-U+042F (among them Є, І, Ї), Ґ, and the
   * Kelvin sign, which lower-cases to 'k'. Every other character is returned
   * unchanged; its lower-case form is never a table key, so the lookup misses
   * either way.
   */
  function ToLower(c: char): (r: char)
    ensures r != c <==> IsUpper(c)
    ensures !IsUpper(r)
    ensures 'A' <= c <= 'Z' ==> 'a' <= r <= 'z'
  {
    if 'A' <= c <= 'Z' then (c as int + 32) as char
    else if '\U{0410}' <= c <= '\U{042F}' then (c as int + 32) as char
    else if '\U{0400}' <= c <= '\U{040F}' then (c as int + 80) as char
    else if c == 'Ґ' then 'ґ'
    else if c == '\U{212A}' then 'k'
    else c
  }

  /** The Ukrainian alphabet in capitals and in lower case, letter for letter. */
  const UpperUa: string := "АБВГҐДЕЄЖЗИІЇЙКЛМНОПРСТУФХЦЧШЩЬЮЯ"
  const LowerUa: string := "абвгґдеєжзиіїйклмнопрстуфхцчшщьюя"

  /** The English alphabet in capitals and in lower case. */
  const UpperEn: string := "ABCDEFGHIJKLMNOPQRSTUVWXYZ"
  const LowerEn: string := "abcdefghijklmnopqrstuvwxyz"

  /**
   * Letter i of the Ukrainian alphabet: `ToLower` sends the capital to its
   * own lower-case letter, a `ua_to_en` key.
   */
  lemma ToLowerUaLetter(i: nat)
    requires i < 33
    ensures |UpperUa| == |LowerUa| == 33
    ensures ToLower(UpperUa[i]) == LowerUa[i]
    ensures IsUkrainianLetter(LowerUa[i])
  {
  }

  /** Letter i of the English alphabet: `ToLower` sends the capital to its own lower-case letter. */
  lemma ToLowerEnLetter(i: nat)
    requires i < 26
    ensures |UpperEn| == |LowerEn| == 26
    ensures ToLower(UpperEn[i]) == LowerEn[i]
    ensures 'a' <= LowerEn[i] <= 'z'
  {
  }

  /**
   * The other capitals `ToLower` changes: the Kelvin sign becomes 'k', a key,
   * and the remaining Cyrillic capitals (U+0400-U+040F besides Є, І, Ї, and
   * Ъ, Ы, Э) become letters that neither table holds, so they pass through.
   */
  lemma ToLowerOtherCapital(c: char)
    requires IsUpper(c) && c !in UpperUa && c !in UpperEn
    ensures c == '\U{212A}' ==> ToLower(c) == 'k'
    ensures c != '\U{212A}' ==> EnToUa(ToLower(c)).None? && UaToEn(ToLower(c)).None?
  {
  }

  /** The capitals `ToLower` changes. */
  predicate IsUpper(c: char)
  {
    'A' <= c <= 'Z' || '\U{0400}' <= c <= '\U{042F}' || c == 'Ґ' || c == '\U{212A}'
  }

  /** `table.get(c.lower(), c)`: one character through one table. */
  function MapChar(table: Table, c: char): char
  {
    match Get(table, ToLower(c))
    case Some(v) => v
    case None => c
  }

  /** `''.join(table.get(c.lower(), c) for c in s)`. */
  function Transliterate(table: Table, s: string): (r: string)
    ensures |r| == |s|
  {
    if s == [] then [] else [MapChar(table, s[0])] + Transliterate(table, s[1..])
  }

  /** `transliterate_to_ua`: each character through `en_to_ua` after lower-casing, or unchanged. */
  function TransliterateToUa(s: string): (r: string)
    ensures |r| == |s|
    ensures forall i :: 0 <= i < |s| ==>
              r[i] == match EnToUa(ToLower(s[i])) case Some(v) => v case None => s[i]
  {
    TransliterateEach(EnUa, s);
    Transliterate(EnUa, s)
  }

  /** `transliterate_to_en`: each character through `ua_to_en` after lower-casing, or unchanged. */
  function TransliterateToEn(s: string): (r: string)
    ensures |r| == |s|
    ensures forall i :: 0 <= i < |s| ==>
              r[i] == match UaToEn(ToLower(s[i])) case Some(v) => v case None => s[i]
  {
    TransliterateEach(UaEn, s);
    Transliterate(UaEn, s)
  }

  // ---------------------------------------------------------------------------
  // Properties of the mapping
  // ---------------------------------------------------------------------------

  /** Position i of the output is character i of the input through the table. */
  lemma {:induction false} TransliterateAt(table: Table, s: string, i: nat)
    requires i < |s|
    ensures |Transliterate(table, s)| == |s|
    ensures Transliterate(table, s)[i] == MapChar(table, s[i])
  {
    if i > 0 {
      TransliterateAt(table, s[1..], i - 1);
    }
  }

  /** Every position of the output at once. */
  lemma TransliterateEach(table: Table, s: string)
    ensures forall i :: 0 <= i < |s| ==> Transliterate(table, s)[i] == MapChar(table, s[i])
  {
    forall i | 0 <= i < |s| ensures Transliterate(table, s)[i] == MapChar(table, s[i]) {
      TransliterateAt(table, s, i);
    }
  }

  /** The mapping acts per character: it distributes over concatenation. */
  lemma {:induction false} TransliterateConcat(table: Table, a: string, b: string)
    ensures Transliterate(table, a + b) == Transliterate(table, a) + Transliterate(table, b)
  {
    if a == [] {
      assert a + b == b;
    } else {
      assert (a + b)[0] == a[0];
      assert (a + b)[1..] == a[1..] + b;
      TransliterateConcat(table, a[1..], b);
    }
  }

  /** A string none of whose characters lower-cases to a key comes back unchanged, case included. */
  lemma {:induction false} PassThrough(table: Table, s: string)
    requires forall i :: 0 <= i < |s| ==> Get(table, ToLower(s[i])).None?
    ensures Transliterate(table, s) == s
  {
    if s != [] {
      PassThrough(table, s[1..]);
    }
  }

  /**
   * Lookup ignores case: two strings that agree character by character up to
   * lower-casing, wherever the lower-case form is a key (and agree exactly
   * elsewhere), map to the same output.
   */
  lemma {:induction false} CaseInsensitive(table: Table, s: string, t: string)
    requires |s| == |t|
    requires forall i :: 0 <= i < |s| ==>
      s[i] == t[i] || (ToLower(s[i]) == ToLower(t[i]) && Get(table, ToLower(s[i])).Some?)
    ensures Transliterate(table, s) == Transliterate(table, t)
  {
    if s != [] {
      CaseInsensitive(table, s[1..], t[1..]);
    }
  }

  /** `ua_to_en` undoes `en_to_ua` on every `en_to_ua` key. */
  lemma UaToEnUndoesEnToUa(k: char)
    ensures EnToUa(k).Some? ==> UaToEn(EnToUa(k).value) == Some(k)
  {
  }

  /** `en_to_ua` undoes `ua_to_en` on every `ua_to_en` key: with the lemma above, each table is the other's inverse. */
  lemma EnToUaUndoesUaToEn(k: char)
    ensures UaToEn(k).Some? ==> EnToUa(UaToEn(k).value) == Some(k)
  {
  }

  /** `en_to_ua` sends distinct keys to distinct characters, and so does `ua_to_en`. */
  lemma TablesInjective(a: char, b: char)
    ensures EnToUa(a).Some? && EnToUa(a) == EnToUa(b) ==> a == b
    ensures UaToEn(a).Some? && UaToEn(a) == UaToEn(b) ==> a == b
  {
    UaToEnUndoesEnToUa(a);
    UaToEnUndoesEnToUa(b);
    EnToUaUndoesUaToEn(a);
    EnToUaUndoesUaToEn(b);
  }

  /** Round trip: a string of lower-case `en_to_ua` keys survives the way there and back. */
  lemma {:induction false} RoundTripToUa(s: string)
    requires forall i :: 0 <= i < |s| ==> EnToUa(s[i]).Some?
    ensures TransliterateToEn(TransliterateToUa(s)) == s
  {
    if s != [] {
      UaToEnUndoesEnToUa(s[0]);
      RoundTripToUa(s[1..]);
    }
  }

  /** Round trip the other way: a string of `ua_to_en` keys survives. */
  lemma {:induction false} RoundTripToEn(s: string)
    requires forall i :: 0 <= i < |s| ==> UaToEn(s[i]).Some?
    ensures TransliterateToUa(TransliterateToEn(s)) == s
  {
    if s != [] {
      EnToUaUndoesUaToEn(s[0]);
      RoundTripToEn(s[1..]);
    }
  }

  /** The round trip loses case: "G" comes back as "g". */
  lemma UpperCaseDoesNotRoundTrip()
    ensures TransliterateToUa("G") == TransliterateToUa("g") == "п"
    ensures TransliterateToEn(TransliterateToUa("G")) == "g"
  {
  }

  /** The round trip needs every character to be a key: Cyrillic "п" passes through to_ua and then becomes "g". */
  lemma MixedInputDoesNotRoundTrip()
    ensures TransliterateToUa("п") == "п"
    ensures TransliterateToEn(TransliterateToUa("п")) == "g"
  {
  }

  /** Upper-case Cyrillic maps the same as lower-case in `transliterate_to_en`. */
  lemma UpperCyrillicToEn()
    ensures TransliterateToEn("ПРИВІТ") == TransliterateToEn("привіт")
  {
    CaseInsensitive(UaEn, "ПРИВІТ", "привіт");
  }

  /**
   * Capitals map like lower case: a capital of either alphabet, alone, gives
   * the same character as its lower-case letter, in both directions.
   */
  lemma CapitalsMapLikeLowerCase()
    ensures forall i :: 0 <= i < 33 ==> TransliterateToEn([UpperUa[i]]) == TransliterateToEn([LowerUa[i]])
    ensures forall i :: 0 <= i < 26 ==> TransliterateToUa([UpperEn[i]]) == TransliterateToUa([LowerEn[i]])
  {
    forall i | 0 <= i < 33
      ensures TransliterateToEn([UpperUa[i]]) == TransliterateToEn([LowerUa[i]])
    {
      ToLowerUaLetter(i);
      var u, l := UpperUa[i], LowerUa[i];
      assert UaToEn(l).Some? && ToLower(l) == l;
      assert TransliterateToEn([u])[0] == TransliterateToEn([l])[0];
    }
    forall i | 0 <= i < 26
      ensures TransliterateToUa([UpperEn[i]]) == TransliterateToUa([LowerEn[i]])
    {
      ToLowerEnLetter(i);
      var u, l := UpperEn[i], LowerEn[i];
      assert EnToUa(l).Some? && ToLower(l) == l;
      assert TransliterateToUa([u])[0] == TransliterateToUa([l])[0];
    }
  }

  /** The greeting from the tables: "ghbdsn" is "привіт" typed on the wrong layout. */
  lemma GreetingToUa()
    ensures TransliterateToUa("ghbdsn") == "привіт"
  {
    var s := "ghbdsn";
    assert MapChar(EnUa, 'g') == 'п' && MapChar(EnUa, 'h') == 'р' && MapChar(EnUa, 'b') == 'и';
    assert MapChar(EnUa, 'd') == 'в' && MapChar(EnUa, 's') == 'і' && MapChar(EnUa, 'n') == 'т';
    TransliterateEach(EnUa, s);
  }

  /** And back: "привіт" typed on the wrong layout is "ghbdsn". */
  lemma GreetingToEn()
    ensures TransliterateToEn("привіт") == "ghbdsn"
  {
    GreetingToUa();
    RoundTripToUa("ghbdsn");
  }

  /** Typing "ghbdtn" gives the Russian-spelled "привет", not "привіт". */
  lemma GhbdtnIsPrivet()
    ensures TransliterateToUa("ghbdtn") == "привет"
  {
    var s := "ghbdtn";
    assert MapChar(EnUa, 'g') == 'п' && MapChar(EnUa, 'h') == 'р' && MapChar(EnUa, 'b') == 'и';
    assert MapChar(EnUa, 'd') == 'в' && MapChar(EnUa, 't') == 'е' && MapChar(EnUa, 'n') == 'т';
    TransliterateEach(EnUa, s);
  }
}
