/**
 Cache keys: the request's credentials, target and forwarded headers as one record, and the string
 that groups requests into flights. Neither merges callers that differ.
 */
module CacheKey {
  import opened Sequences
  import opened Wrappers

  /** A code point, or 0x110000 + b for a byte b that is not valid UTF-8 where it stands. */
  type Piece = p: int | 0 <= p < 0xD800 || 0xE000 <= p < 0x110000 || 0x110080 <= p < 0x110100

  /** A Go string, decoded. */
  type Text = seq<Piece>

  function Lit(s: string): Text {
    seq(|s|, i requires 0 <= i < |s| => s[i] as int)
  }

  const QUOTE: Piece := 34
  const BACKSLASH: Piece := 92
  const COMMA: Piece := 44
  const EQUALS: Piece := 61

  // ----- strconv.Quote

  function HexDigit(d: int): (p: Piece)
    requires 0 <= d < 16
  {
    if d < 10 then 48 + d else 87 + d
  }

  /** The last width hexadecimal digits of n. */
  function Hex(n: nat, width: nat): (r: Text)
    ensures |r| == width
  {
    if width == 0 then [] else Hex(n / 16, width - 1) + [HexDigit(n % 16)]
  }

  predicate FitsIn(n: nat, width: nat) {
    if width == 0 then n == 0 else FitsIn(n / 16, width - 1)
  }

  lemma {:induction false} HexIsInjective(n: nat, m: nat, width: nat)
    requires FitsIn(n, width) && FitsIn(m, width) && Hex(n, width) == Hex(m, width)
    ensures n == m
  {
    if width > 0 {
      assert Hex(n, width)[..width - 1] == Hex(n / 16, width - 1) && Hex(n, width)[width - 1] == HexDigit(n % 16);
      assert Hex(m, width)[..width - 1] == Hex(m / 16, width - 1) && Hex(m, width)[width - 1] == HexDigit(m % 16);
      HexIsInjective(n / 16, m / 16, width - 1);
    }
  }

  /** The forms of an escaped piece: itself, a backslash and a letter, or a backslash, a letter and digits. */
  datatype Form = Plain | Short(letter: Piece) | Coded(letter: Piece, n: nat, width: nat)

  /** \a \b \f \n \r \t \v. */
  function ShortLetter(p: Piece): Option<Piece> {
    if p == 7 then Some(97)
    else if p == 8 then Some(98)
    else if p == 12 then Some(102)
    else if p == 10 then Some(110)
    else if p == 13 then Some(114)
    else if p == 9 then Some(116)
    else if p == 11 then Some(118)
    else None
  }

  /** What the quoting does with a piece; isPrint is strconv.IsPrint. */
  function FormOf(isPrint: Piece -> bool, p: Piece): Form {
    if p >= 0x110000 then Coded(120, p - 0x110000, 2)
    else if p == QUOTE || p == BACKSLASH then Short(p)
    else if isPrint(p) then Plain
    else if ShortLetter(p).Some? then Short(ShortLetter(p).value)
    else if p < 32 || p == 127 then Coded(120, p, 2)
    else if p < 0x10000 then Coded(117, p, 4)
    else Coded(85, p, 8)
  }

  function Escape(isPrint: Piece -> bool, p: Piece): Text {
    match FormOf(isPrint, p)
    case Plain => [p]
    case Short(letter) => [BACKSLASH, letter]
    case Coded(letter, n, width) => [BACKSLASH, letter] + Hex(n, width)
  }

  lemma FormIsInjective(isPrint: Piece -> bool, p: Piece, q: Piece)
    requires FormOf(isPrint, p) == FormOf(isPrint, q) && !FormOf(isPrint, p).Plain?
    ensures p == q
  {
  }

  lemma CodedFits(isPrint: Piece -> bool, p: Piece)
    ensures match FormOf(isPrint, p)
            case Coded(letter, n, width) => FitsIn(n, width)
            case Plain => p != QUOTE && p != BACKSLASH
            case Short(letter) => letter !in {85, 117, 120}
  {
    assert forall n: nat | n < 0x100 :: FitsIn(n, 2) by {
      forall n: nat | n < 0x100 ensures FitsIn(n, 2) { FitsByPower(n, 2); }
    }
    if 0x10000 <= p < 0x110000 {
      FitsByPower(p, 8);
    } else if p < 0x10000 {
      FitsByPower(p, 4);
    }
  }

  function Power16(width: nat): nat {
    if width == 0 then 1 else 16 * Power16(width - 1)
  }

  lemma {:induction false} FitsByPower(n: nat, width: nat)
    requires n < Power16(width)
    ensures FitsIn(n, width)
  {
    if width > 0 {
      FitsByPower(n / 16, width - 1);
    }
  }

  /** Equal heads of equal length cancel. */
  lemma Cancel<T>(a: seq<T>, b: seq<T>, x: seq<T>, y: seq<T>)
    requires |a| == |b| && a + x == b + y
    ensures a == b && x == y
  {
    assert (a + x)[..|a|] == a && (b + y)[..|b|] == b;
    assert (a + x)[|a|..] == x && (b + y)[|b|..] == y;
  }

  lemma SameHead<T>(a: seq<T>, b: seq<T>, x: seq<T>, y: seq<T>, n: nat)
    requires a + x == b + y && n < |a| && n < |b|
    ensures a[n] == b[n]
  {
    assert (a + x)[n] == a[n] && (b + y)[n] == b[n];
  }

  /** No escaped piece is the beginning of another, nor begins like the closing quote. */
  lemma EscapeCancels(isPrint: Piece -> bool, p: Piece, q: Piece, x: Text, y: Text)
    requires Escape(isPrint, p) + x == Escape(isPrint, q) + y
    ensures p == q && x == y
  {
    var a, b := Escape(isPrint, p), Escape(isPrint, q);
    CodedFits(isPrint, p);
    CodedFits(isPrint, q);
    SameHead(a, b, x, y, 0);
    if |a| > 1 && |b| > 1 {
      SameHead(a, b, x, y, 1);
    }
    SameForms(isPrint, p, q, x, y);
    Cancel(a, b, x, y);
  }

  lemma SameForms(isPrint: Piece -> bool, p: Piece, q: Piece, x: Text, y: Text)
    requires Escape(isPrint, p) + x == Escape(isPrint, q) + y
    requires Escape(isPrint, p)[0] == Escape(isPrint, q)[0]
    requires |Escape(isPrint, p)| > 1 && |Escape(isPrint, q)| > 1 ==> Escape(isPrint, p)[1] == Escape(isPrint, q)[1]
    ensures p == q
  {
    CodedFits(isPrint, p);
    CodedFits(isPrint, q);
    match (FormOf(isPrint, p), FormOf(isPrint, q))
    case (Plain, Plain) =>
    case (Short(_), Short(_)) => FormIsInjective(isPrint, p, q);
    case (Coded(letter, n, width), Coded(_, m, _)) =>
      SameWidth(isPrint, p, q);
      Cancel(Escape(isPrint, p), Escape(isPrint, q), x, y);
      assert Hex(n, width) == Escape(isPrint, p)[2..] && Hex(m, width) == Escape(isPrint, q)[2..];
      HexIsInjective(n, m, width);
      FormIsInjective(isPrint, p, q);
    case _ =>
  }

  lemma SameWidth(isPrint: Piece -> bool, p: Piece, q: Piece)
    requires FormOf(isPrint, p).Coded? && FormOf(isPrint, q).Coded? && FormOf(isPrint, p).letter == FormOf(isPrint, q).letter
    ensures FormOf(isPrint, p).width == FormOf(isPrint, q).width
  {
  }

  function Escaped(isPrint: Piece -> bool, s: Text): Text {
    if s == [] then [] else Escape(isPrint, s[0]) + Escaped(isPrint, s[1..])
  }

  /** strconv.Quote. */
  function Quote(isPrint: Piece -> bool, s: Text): Text {
    [QUOTE] + Escaped(isPrint, s) + [QUOTE]
  }

  /** A text from inside a quoted string on: the escaped pieces, the closing quote, and the rest. */
  function Inside(isPrint: Piece -> bool, s: Text, rest: Text): Text {
    if s == [] then [QUOTE] + rest else Escape(isPrint, s[0]) + Inside(isPrint, s[1..], rest)
  }

  lemma {:induction false} InsideIs(isPrint: Piece -> bool, s: Text, rest: Text)
    ensures Inside(isPrint, s, rest) == Escaped(isPrint, s) + ([QUOTE] + rest)
  {
    hide Escape;
    if s == [] {
      NoneBefore([QUOTE] + rest);
    } else {
      InsideIs(isPrint, s[1..], rest);
      Regroup(Escape(isPrint, s[0]), Escaped(isPrint, s[1..]), [QUOTE] + rest);
    }
  }

  lemma NoneBefore<T>(a: seq<T>)
    ensures [] + a == a
  {
  }

  lemma EscapeStarts(isPrint: Piece -> bool, p: Piece)
    ensures Escape(isPrint, p) != [] && Escape(isPrint, p)[0] != QUOTE
  {
    CodedFits(isPrint, p);
  }

  lemma {:induction false} InsideCancels(isPrint: Piece -> bool, a: Text, b: Text, x: Text, y: Text)
    requires Inside(isPrint, a, x) == Inside(isPrint, b, y)
    ensures a == b && x == y
  {
    hide Escape;
    if a == [] && b == [] {
      Cancel([QUOTE], [QUOTE], x, y);
    } else if a == [] {
      EscapeStarts(isPrint, b[0]);
      SameHead([QUOTE], Escape(isPrint, b[0]), x, Inside(isPrint, b[1..], y), 0);
    } else if b == [] {
      EscapeStarts(isPrint, a[0]);
      SameHead(Escape(isPrint, a[0]), [QUOTE], Inside(isPrint, a[1..], x), y, 0);
    } else {
      EscapeCancels(isPrint, a[0], b[0], Inside(isPrint, a[1..], x), Inside(isPrint, b[1..], y));
      InsideCancels(isPrint, a[1..], b[1..], x, y);
      SameCons(a, b);
    }
  }

  lemma SameCons<T>(a: seq<T>, b: seq<T>)
    requires a != [] && b != [] && a[0] == b[0] && a[1..] == b[1..]
    ensures a == b
  {
    assert a == [a[0]] + a[1..] && b == [b[0]] + b[1..];
  }

  lemma QuoteIs(isPrint: Piece -> bool, s: Text, rest: Text)
    ensures Quote(isPrint, s) + rest == [QUOTE] + Inside(isPrint, s, rest)
  {
    hide Escaped, Inside;
    InsideIs(isPrint, s, rest);
    QuoteRegroup([QUOTE], Escaped(isPrint, s), [QUOTE], rest);
  }

  lemma QuoteRegroup<T>(a: seq<T>, b: seq<T>, c: seq<T>, d: seq<T>)
    ensures a + b + c + d == a + (b + (c + d))
  {
  }

  /** A quoted string ends where it ends: two texts that begin with one are equal only if it and the rest are. */
  lemma QuoteCancels(isPrint: Piece -> bool, a: Text, b: Text, x: Text, y: Text)
    requires Quote(isPrint, a) + x == Quote(isPrint, b) + y
    ensures a == b && x == y
  {
    hide Quote, Inside;
    QuoteIs(isPrint, a, x);
    QuoteIs(isPrint, b, y);
    Cancel([QUOTE], [QUOTE], Inside(isPrint, a, x), Inside(isPrint, b, y));
    InsideCancels(isPrint, a, b, x, y);
  }

  // ----- the forwarded headers of a request

  /** Each header as a quoted name, an equals sign, the quoted value and a comma, in the order of names. */
  function Serialize(isPrint: Piece -> bool, headers: map<Text, Text>, names: seq<Text>): Text
    requires forall n | n in names :: n in headers
  {
    if names == [] then []
    else Quote(isPrint, names[0])
         + ([EQUALS] + (Quote(isPrint, headers[names[0]]) + ([COMMA] + Serialize(isPrint, headers, names[1..]))))
  }

  lemma SerializeStarts(isPrint: Piece -> bool, headers: map<Text, Text>, names: seq<Text>)
    requires (forall n | n in names :: n in headers) && names != []
    ensures Serialize(isPrint, headers, names) != []
  {
    assert Quote(isPrint, names[0]) != [];
  }

  /** Serialized lists are equal only if names and values are. */
  lemma {:induction false} SerializeCancels(isPrint: Piece -> bool, h1: map<Text, Text>, n1: seq<Text>, h2: map<Text, Text>, n2: seq<Text>)
    requires (forall n | n in n1 :: n in h1) && (forall n | n in n2 :: n in h2)
    requires Serialize(isPrint, h1, n1) == Serialize(isPrint, h2, n2)
    ensures n1 == n2 && forall n | n in n1 :: h1[n] == h2[n]
  {
    hide Quote;
    if n1 != [] {
      SerializeStarts(isPrint, h1, n1);
    }
    if n2 != [] {
      SerializeStarts(isPrint, h2, n2);
    }
    if n1 != [] {
      var x1 := [COMMA] + Serialize(isPrint, h1, n1[1..]);
      var x2 := [COMMA] + Serialize(isPrint, h2, n2[1..]);
      var v1, v2 := Quote(isPrint, h1[n1[0]]) + x1, Quote(isPrint, h2[n2[0]]) + x2;
      QuoteCancels(isPrint, n1[0], n2[0], [EQUALS] + v1, [EQUALS] + v2);
      Cancel([EQUALS], [EQUALS], v1, v2);
      QuoteCancels(isPrint, h1[n1[0]], h2[n2[0]], x1, x2);
      Cancel([COMMA], [COMMA], Serialize(isPrint, h1, n1[1..]), Serialize(isPrint, h2, n2[1..]));
      SerializeCancels(isPrint, h1, n1[1..], h2, n2[1..]);
      SameCons(n1, n2);
    }
  }

  /** sort.Strings compares byte by byte; all that matters here is that nothing precedes itself and that order is transitive. */
  ghost predicate StrictOrder(less: (Text, Text) -> bool) {
    && (forall a :: !less(a, a))
    && (forall a, b, c :: less(a, b) && less(b, c) ==> less(a, c))
  }

  ghost predicate Ascending(less: (Text, Text) -> bool, names: seq<Text>) {
    forall i, j | 0 <= i < j < |names| :: less(names[i], names[j])
  }

  ghost predicate SortedNames(less: (Text, Text) -> bool, headers: map<Text, Text>, names: seq<Text>) {
    Ascending(less, names) && forall n :: n in names <==> n in headers
  }

  /** The names of a map can be put in ascending order in one way only. */
  lemma {:induction false} SortedNamesAreUnique<T(!new)>(less: (T, T) -> bool, a: seq<T>, b: seq<T>)
    requires forall x :: !less(x, x)
    requires forall x, y, z :: less(x, y) && less(y, z) ==> less(x, z)
    requires (forall i, j | 0 <= i < j < |a| :: less(a[i], a[j])) && (forall i, j | 0 <= i < j < |b| :: less(b[i], b[j]))
    requires forall n :: n in a <==> n in b
    ensures a == b
  {
    assert a != [] ==> a[0] in b;
    assert b != [] ==> b[0] in a;
    if a != [] {
      assert a[0] == b[0];
      forall n
        ensures n in a[1..] <==> n in b[1..]
      {
        TailMembers(less, a, n);
        TailMembers(less, b, n);
      }
      SortedNamesAreUnique(less, a[1..], b[1..]);
      SameCons(a, b);
    }
  }

  lemma TailMembers<T(!new)>(less: (T, T) -> bool, a: seq<T>, n: T)
    requires a != [] && (forall x :: !less(x, x)) && forall i, j | 0 <= i < j < |a| :: less(a[i], a[j])
    ensures n in a[1..] <==> n in a && n != a[0]
  {
    if n in a && n != a[0] {
      var i :| 0 <= i < |a| && a[i] == n;
      assert a[1..][i - 1] == n;
    }
    if n in a[1..] {
      var i :| 0 <= i < |a[1..]| && a[1..][i] == n;
      assert a[i + 1] == n;
    }
  }

  /** Distinct header maps have distinct serializations, and a map has only one. */
  lemma {:induction false} SerializationIsExact(isPrint: Piece -> bool, less: (Text, Text) -> bool,
                             h1: map<Text, Text>, n1: seq<Text>, h2: map<Text, Text>, n2: seq<Text>)
    requires StrictOrder(less) && SortedNames(less, h1, n1) && SortedNames(less, h2, n2)
    ensures Serialize(isPrint, h1, n1) == Serialize(isPrint, h2, n2) <==> h1 == h2
  {
    hide Serialize;
    if Serialize(isPrint, h1, n1) == Serialize(isPrint, h2, n2) {
      SerializeCancels(isPrint, h1, n1, h2, n2);
      assert forall n | n in h1 :: n in h2 && h1[n] == h2[n];
      assert h1.Keys == h2.Keys;
    }
    if h1 == h2 {
      SortedNamesAreUnique(less, n1, n2);
    }
  }

  // ----- the key and its flight

  /** clientCacheKey. */
  datatype Key = Key(
    url: Text,
    overrideURL: Text,
    apiKey: Text,
    username: Text,
    password: Text,
    orgID: int,
    forwardedHeaders: Text)

  function Digits(n: nat): Text {
    if n < 10 then [48 + n] else Digits(n / 10) + [48 + n % 10]
  }

  function Decimal(n: int): Text {
    if n < 0 then Lit("-") + Digits(-n) else Digits(n)
  }

  lemma {:induction false} DigitsAreDigits(n: nat)
    ensures Digits(n) != [] && forall i | 0 <= i < |Digits(n)| :: 48 <= Digits(n)[i] <= 57
  {
    if n >= 10 {
      DigitsAreDigits(n / 10);
    }
  }

  lemma {:induction false} DigitsAreExact(n: nat, m: nat)
    requires Digits(n) == Digits(m)
    ensures n == m
  {
    DigitsAreDigits(n / 10);
    DigitsAreDigits(m / 10);
    assert (n < 10 <==> |Digits(n)| == 1) && (m < 10 <==> |Digits(m)| == 1);
    if n >= 10 && m >= 10 {
      assert Digits(n)[..|Digits(n)| - 1] == Digits(n / 10) && Digits(m)[..|Digits(m)| - 1] == Digits(m / 10);
      assert Digits(n)[|Digits(n)| - 1] == 48 + n % 10 && Digits(m)[|Digits(m)| - 1] == 48 + m % 10;
      DigitsAreExact(n / 10, m / 10);
    }
  }

  lemma DecimalIsExact(n: int, m: int)
    requires Decimal(n) == Decimal(m)
    ensures n == m
  {
    DigitsAreDigits(if n < 0 then -n else n);
    DigitsAreDigits(if m < 0 then -m else m);
    assert (n < 0 <==> Decimal(n)[0] == 45) && (m < 0 <==> Decimal(m)[0] == 45);
    if n < 0 && m < 0 {
      Cancel(Lit("-"), Lit("-"), Digits(-n), Digits(-m));
      DigitsAreExact(-n, -m);
    } else if n >= 0 && m >= 0 {
      DigitsAreExact(n, m);
    }
  }

  lemma DecimalHasNoComma(n: int)
    ensures COMMA !in Decimal(n)
  {
    DigitsAreDigits(if n < 0 then -n else n);
  }

  /** Two texts that agree up to the first comma of both. */
  lemma CommaCancels(a: Text, b: Text, x: Text, y: Text)
    requires COMMA !in a && COMMA !in b && a + ([COMMA] + x) == b + ([COMMA] + y)
    ensures a == b && x == y
  {
    var whole := a + ([COMMA] + x);
    assert whole[|a|] == COMMA && forall i | 0 <= i < |a| :: whole[i] == a[i];
    assert whole[|b|] == COMMA && forall i | 0 <= i < |b| :: whole[i] == b[i] by {
      assert whole == b + ([COMMA] + y);
    }
    assert |a| == |b|;
    Cancel(a, b, [COMMA] + x, [COMMA] + y);
    Cancel([COMMA], [COMMA], x, y);
  }

  function Field(isPrint: Piece -> bool, name: string, value: Text, rest: Text): Text {
    Lit(name) + (Quote(isPrint, value) + rest)
  }

  lemma FieldCancels(isPrint: Piece -> bool, name: string, a: Text, b: Text, x: Text, y: Text)
    requires Field(isPrint, name, a, x) == Field(isPrint, name, b, y)
    ensures a == b && x == y
  {
    hide Quote, Lit;
    Cancel(Lit(name), Lit(name), Quote(isPrint, a) + x, Quote(isPrint, b) + y);
    QuoteCancels(isPrint, a, b, x, y);
  }

  function HeadersPart(isPrint: Piece -> bool, key: Key): Text {
    Field(isPrint, " forwardedHeaders:", key.forwardedHeaders, Lit("}"))
  }

  function OrgPart(isPrint: Piece -> bool, key: Key): Text {
    Lit(", orgID:") + (Decimal(key.orgID) + ([COMMA] + HeadersPart(isPrint, key)))
  }

  function CredentialsPart(isPrint: Piece -> bool, key: Key): Text {
    Field(isPrint, ", apiKey:", key.apiKey,
          Field(isPrint, ", username:", key.username, Field(isPrint, ", password:", key.password, OrgPart(isPrint, key))))
  }

  /** singleflightKey: the %#v form of the record. */
  function SingleflightKey(isPrint: Piece -> bool, key: Key): Text {
    Field(isPrint, "mcpgrafana.clientCacheKey{url:", key.url,
          Field(isPrint, ", overrideURL:", key.overrideURL, CredentialsPart(isPrint, key)))
  }

  lemma OrgCancels(isPrint: Piece -> bool, a: Key, b: Key)
    requires OrgPart(isPrint, a) == OrgPart(isPrint, b)
    ensures a.orgID == b.orgID && a.forwardedHeaders == b.forwardedHeaders
  {
    hide Field, Decimal, Lit;
    Cancel(Lit(", orgID:"), Lit(", orgID:"),
           Decimal(a.orgID) + ([COMMA] + HeadersPart(isPrint, a)), Decimal(b.orgID) + ([COMMA] + HeadersPart(isPrint, b)));
    DecimalHasNoComma(a.orgID);
    DecimalHasNoComma(b.orgID);
    CommaCancels(Decimal(a.orgID), Decimal(b.orgID), HeadersPart(isPrint, a), HeadersPart(isPrint, b));
    DecimalIsExact(a.orgID, b.orgID);
    FieldCancels(isPrint, " forwardedHeaders:", a.forwardedHeaders, b.forwardedHeaders, Lit("}"), Lit("}"));
  }

  lemma CredentialsCancel(isPrint: Piece -> bool, a: Key, b: Key)
    requires CredentialsPart(isPrint, a) == CredentialsPart(isPrint, b)
    ensures a.apiKey == b.apiKey && a.username == b.username && a.password == b.password
    ensures OrgPart(isPrint, a) == OrgPart(isPrint, b)
  {
    hide Field, OrgPart;
    var pa := Field(isPrint, ", password:", a.password, OrgPart(isPrint, a));
    var pb := Field(isPrint, ", password:", b.password, OrgPart(isPrint, b));
    FieldCancels(isPrint, ", apiKey:", a.apiKey, b.apiKey,
                 Field(isPrint, ", username:", a.username, pa), Field(isPrint, ", username:", b.username, pb));
    FieldCancels(isPrint, ", username:", a.username, b.username, pa, pb);
    FieldCancels(isPrint, ", password:", a.password, b.password, OrgPart(isPrint, a), OrgPart(isPrint, b));
  }

  /** Callers share a flight only if their whole keys are equal. */
  lemma FlightsSeparateKeys(isPrint: Piece -> bool, a: Key, b: Key)
    requires SingleflightKey(isPrint, a) == SingleflightKey(isPrint, b)
    ensures a == b
  {
    hide Field, CredentialsPart;
    var ra := Field(isPrint, ", overrideURL:", a.overrideURL, CredentialsPart(isPrint, a));
    var rb := Field(isPrint, ", overrideURL:", b.overrideURL, CredentialsPart(isPrint, b));
    FieldCancels(isPrint, "mcpgrafana.clientCacheKey{url:", a.url, b.url, ra, rb);
    FieldCancels(isPrint, ", overrideURL:", a.overrideURL, b.overrideURL, CredentialsPart(isPrint, a), CredentialsPart(isPrint, b));
    CredentialsCancel(isPrint, a, b);
    OrgCancels(isPrint, a, b);
  }

  /** url.Userinfo: a name and maybe a password. */
  datatype Userinfo = Userinfo(username: Text, password: Option<Text>)

  /** What of an HTTP request the key depends on: the override URL in its context and its forwarded headers. */
  datatype Request = Request(overrideURL: Option<Text>, headers: map<Text, Text>)

  ghost predicate Sorts(less: (Text, Text) -> bool, sort: seq<Text> -> seq<Text>) {
    forall names ::
      && multiset(sort(names)) == multiset(names)
      && forall i, j | 0 <= i < j < |sort(names)| :: less(sort(names)[i], sort(names)[j]) || sort(names)[i] == sort(names)[j]
  }

  ghost predicate Repeats(names: seq<Text>) {
    exists i, j :: 0 <= i < j < |names| && names[i] == names[j]
  }

  /** The range over the header map, in whatever order it yields the names. */
  method CollectNames(headers: map<Text, Text>) returns (names: seq<Text>)
    ensures !Repeats(names) && forall n :: n in names <==> n in headers
  {
    names := [];
    var left := headers.Keys;
    while left != {}
      invariant left <= headers.Keys && !Repeats(names)
      invariant forall n :: n in names <==> n in headers && n !in left
      decreases left
    {
      var n :| n in left;
      names := names + [n];
      left := left - {n};
    }
  }

  /** The loop that writes the headers. */
  method WriteHeaders(isPrint: Piece -> bool, headers: map<Text, Text>, names: seq<Text>) returns (sb: Text)
    requires forall n | n in names :: n in headers
    ensures sb == Serialize(isPrint, headers, names)
  {
    hide Quote, Serialize;
    sb := [];
    var i := 0;
    assert names[0..] == names && [] + Serialize(isPrint, headers, names) == Serialize(isPrint, headers, names);
    while i < |names|
      invariant i <= |names|
      invariant Serialize(isPrint, headers, names) == sb + Serialize(isPrint, headers, names[i..])
    {
      WriteStep(isPrint, headers, names, i, sb);
      sb := sb + Quote(isPrint, names[i]) + [EQUALS] + Quote(isPrint, headers[names[i]]) + [COMMA];
      i := i + 1;
    }
    NoNames(isPrint, headers);
    assert names[i..] == [] && sb + [] == sb;
  }

  lemma NoNames(isPrint: Piece -> bool, headers: map<Text, Text>)
    ensures Serialize(isPrint, headers, []) == []
  {
  }

  lemma WriteStep(isPrint: Piece -> bool, headers: map<Text, Text>, names: seq<Text>, i: nat, sb: Text)
    requires (forall n | n in names :: n in headers) && i < |names|
    ensures sb + Serialize(isPrint, headers, names[i..]) ==
            sb + Quote(isPrint, names[i]) + [EQUALS] + Quote(isPrint, headers[names[i]]) + [COMMA]
            + Serialize(isPrint, headers, names[i + 1..])
  {
    hide Quote;
    assert names[i..][1..] == names[i + 1..];
    WriteOne(sb, Quote(isPrint, names[i]), [EQUALS], Quote(isPrint, headers[names[i]]), [COMMA],
             Serialize(isPrint, headers, names[i + 1..]));
  }

  lemma WriteOne<T>(sb: seq<T>, a: seq<T>, b: seq<T>, c: seq<T>, d: seq<T>, rest: seq<T>)
    ensures sb + (a + (b + (c + (d + rest)))) == sb + a + b + c + d + rest
  {
  }

  /** Without a request there are no headers to forward. */
  function HeadersOf(request: Option<Request>): map<Text, Text> {
    if request.Some? then request.value.headers else map[]
  }

  function OrEmpty(text: Option<Text>): Text {
    if text.Some? then text.value else []
  }

  function OverrideOf(request: Option<Request>): Text {
    if request.Some? then OrEmpty(request.value.overrideURL) else []
  }

  function UsernameOf(basicAuth: Option<Userinfo>): Text {
    if basicAuth.Some? then basicAuth.value.username else []
  }

  function PasswordOf(basicAuth: Option<Userinfo>): Text {
    if basicAuth.Some? then OrEmpty(basicAuth.value.password) else []
  }

  /** The key of a request, given its header names in ascending order. */
  function KeyOf(isPrint: Piece -> bool, url: Text, apiKey: Text, basicAuth: Option<Userinfo>, orgID: int,
                 request: Option<Request>, names: seq<Text>): Key
    requires forall n | n in names :: n in HeadersOf(request)
  {
    Key(url, OverrideOf(request), apiKey, UsernameOf(basicAuth), PasswordOf(basicAuth), orgID,
        Serialize(isPrint, HeadersOf(request), names))
  }

  lemma SortedIsAscending(less: (Text, Text) -> bool, sort: seq<Text> -> seq<Text>, names: seq<Text>)
    requires StrictOrder(less) && Sorts(less, sort) && !Repeats(names)
    ensures Ascending(less, sort(names)) && forall n :: n in sort(names) <==> n in names
  {
    var sorted := sort(names);
    forall n
      ensures n in sorted <==> n in names
    {
      assert multiset(sorted)[n] == multiset(names)[n];
    }
    forall i, j | 0 <= i < j < |sorted|
      ensures sorted[i] != sorted[j]
    {
      NoRepeatCounts(names, sorted[i]);
      if sorted[i] == sorted[j] {
        RepeatCounts(sorted, i, j);
      }
    }
  }

  lemma {:induction false} NoRepeatCounts<T>(names: seq<T>, n: T)
    requires forall i, j | 0 <= i < j < |names| :: names[i] != names[j]
    ensures multiset(names)[n] <= 1
  {
    if names != [] {
      NoRepeatCounts(names[..|names| - 1], n);
      assert names == names[..|names| - 1] + [names[|names| - 1]];
    }
  }

  lemma RepeatCounts<T>(names: seq<T>, i: nat, j: nat)
    requires i < j < |names| && names[i] == names[j]
    ensures multiset(names)[names[i]] >= 2
  {
    assert names == names[..j] + names[j..];
    assert names[..j][i] in multiset(names[..j]) && names[j..][0] in multiset(names[j..]);
  }

  /** cacheKeyFromRequest. */
  method CacheKeyFromRequest(isPrint: Piece -> bool, less: (Text, Text) -> bool, sort: seq<Text> -> seq<Text>,
                             url: Text, apiKey: Text, basicAuth: Option<Userinfo>, orgID: int, request: Option<Request>)
    returns (key: Key)
    requires StrictOrder(less) && Sorts(less, sort)
    ensures exists names :: SortedNames(less, HeadersOf(request), names)
                            && key == KeyOf(isPrint, url, apiKey, basicAuth, orgID, request, names)
  {
    hide Serialize, Sorts, StrictOrder;
    key := Key(url, [], apiKey, [], [], orgID, []);
    var names: seq<Text> := [];
    if basicAuth.Some? {
      key := key.(username := basicAuth.value.username);
      if basicAuth.value.password.Some? {
        key := key.(password := basicAuth.value.password.value);
      }
    }
    if request.Some? {
      if request.value.overrideURL.Some? {
        key := key.(overrideURL := request.value.overrideURL.value);
      }
      var collected := CollectNames(request.value.headers);
      names := sort(collected);
      SortedIsAscending(less, sort, collected);
      var written := WriteHeaders(isPrint, request.value.headers, names);
      key := key.(forwardedHeaders := written);
    } else {
      NoNames(isPrint, map[]);
    }
    assert SortedNames(less, HeadersOf(request), names);
  }

  /** Each field of the key has its own source; what the request does not have is empty. */
  lemma KeyFields(isPrint: Piece -> bool, url: Text, apiKey: Text, basicAuth: Option<Userinfo>, orgID: int,
                  request: Option<Request>, names: seq<Text>)
    requires forall n | n in names :: n in HeadersOf(request)
    ensures var key := KeyOf(isPrint, url, apiKey, basicAuth, orgID, request, names);
            && key.url == url && key.apiKey == apiKey && key.orgID == orgID
            && (match basicAuth
                case None => key.username == [] && key.password == []
                case Some(Userinfo(username, None)) => key.username == username && key.password == []
                case Some(Userinfo(username, Some(password))) => key.username == username && key.password == password)
            && (match request
                case Some(Request(Some(overrideURL), _)) => key.overrideURL == overrideURL
                case _ => key.overrideURL == [])
            && (names == [] <==> key.forwardedHeaders == [])
  {
    if names != [] {
      SerializeStarts(isPrint, HeadersOf(request), names);
    }
  }

  /** Two requests have the same key exactly when nothing the key is about differs. */
  lemma SameKeyIff(isPrint: Piece -> bool, less: (Text, Text) -> bool,
                   url1: Text, api1: Text, auth1: Option<Userinfo>, org1: int, r1: Option<Request>, n1: seq<Text>,
                   url2: Text, api2: Text, auth2: Option<Userinfo>, org2: int, r2: Option<Request>, n2: seq<Text>)
    requires StrictOrder(less) && SortedNames(less, HeadersOf(r1), n1) && SortedNames(less, HeadersOf(r2), n2)
    ensures KeyOf(isPrint, url1, api1, auth1, org1, r1, n1) == KeyOf(isPrint, url2, api2, auth2, org2, r2, n2) <==>
            && url1 == url2 && api1 == api2 && org1 == org2
            && UsernameOf(auth1) == UsernameOf(auth2) && PasswordOf(auth1) == PasswordOf(auth2)
            && OverrideOf(r1) == OverrideOf(r2)
            && HeadersOf(r1) == HeadersOf(r2)
  {
    hide Serialize, HeadersOf, OverrideOf, UsernameOf, PasswordOf, StrictOrder;
    SerializationIsExact(isPrint, less, HeadersOf(r1), n1, HeadersOf(r2), n2);
  }
}
