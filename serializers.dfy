/**
 * The serializer (`usuario/serializers.py`): an explicit allow-list of fields
 * between a user row and the JSON the API reads and writes. `id` is output
 * only, `password` input only. Every writable field is a DRF `CharField`
 * (`password` declared, the others derived from `CharField`/`EmailField`
 * columns), so on input each value is turned into text, refused when blank
 * and kept with surrounding whitespace stripped.
 */
module Serializers {
  import opened Wrappers
  import opened Models

  /** A JSON value of the kinds these fields take. */
  datatype Json = JInt(n: int) | JStr(s: string)

  /** Why a field of the input is refused: DRF's `required`, `blank` and `null_characters_not_allowed` errors. */
  datatype FieldError = Required | Blank | NullCharacter

  /**
   * `validated_data`: the declared fields that are not read-only (`username`,
   * `email`, `dni`, `password`), each as stripped text. `id`, read-only, and
   * any undeclared key never reach it.
   */
  datatype UserInput = UserInput(username: string, email: string, dni: string, password: string)

  /** `serializer.errors`: the error of each writable field, if it has one. */
  datatype InputErrors = InputErrors(username: Option<FieldError>, email: Option<FieldError>,
                                     dni: Option<FieldError>, password: Option<FieldError>)

  /** `serializer.data`: the declared fields `id`, `username`, `email`, `dni`, `password`, less the write-only `password`. */
  function ToRepresentation(u: Usuario): (data: map<string, Json>)
    ensures data.Keys == {"id", "username", "email", "dni"}
    ensures "password" !in data
    ensures data["id"] == JInt(u.id) && data["username"] == JStr(u.username)
    ensures data["email"] == JStr(u.email) && data["dni"] == JStr(u.dni)
  {
    map["id" := JInt(u.id), "username" := JStr(u.username), "email" := JStr(u.email), "dni" := JStr(u.dni)]
  }

  /** Python's `str.isspace` for one character: the ASCII whitespace and separators, and the Unicode spaces. */
  predicate IsSpace(c: char)
  {
    var n := c as int;
    || 9 <= n <= 13 || 28 <= n <= 32 || n == 0x85 || n == 0xA0 || n == 0x1680
    || 0x2000 <= n <= 0x200A || n == 0x2028 || n == 0x2029 || n == 0x202F || n == 0x205F || n == 0x3000
  }

  predicate AllSpace(s: string)
  {
    forall i :: 0 <= i < |s| ==> IsSpace(s[i])
  }

  /** `s.lstrip()`: the suffix of `s` left once its leading whitespace is gone. */
  function TrimStart(s: string): (t: string)
    ensures |t| <= |s| && t == s[|s| - |t|..]
    ensures forall i :: 0 <= i < |s| - |t| ==> IsSpace(s[i])
    ensures t == [] || !IsSpace(t[0])
  {
    if s == [] || !IsSpace(s[0]) then s else TrimStart(s[1..])
  }

  /** `s.rstrip()`: the prefix of `s` left once its trailing whitespace is gone. */
  function TrimEnd(s: string): (t: string)
    ensures t <= s
    ensures forall i :: |t| <= i < |s| ==> IsSpace(s[i])
    ensures t == [] || !IsSpace(t[|t| - 1])
  {
    if s == [] || !IsSpace(s[|s| - 1]) then s else TrimEnd(s[..|s| - 1])
  }

  /** The whitespace `lstrip` removes, in front of what it keeps. */
  lemma {:induction false} LeadingPadding(s: string) returns (pre: string)
    ensures AllSpace(pre) && s == pre + TrimStart(s)
    decreases |s|
  {
    if s == [] || !IsSpace(s[0]) {
      pre := [];
      assert s == pre + s;
    } else {
      var rest := LeadingPadding(s[1..]);
      pre := [s[0]] + rest;
      assert s == [s[0]] + s[1..];
      ConcatAssociative([s[0]], rest, TrimStart(s[1..]));
      forall i | 0 <= i < |pre|
        ensures IsSpace(pre[i])
      {
        if i > 0 {
          assert pre[i] == rest[i - 1];
        }
      }
    }
  }

  /** The whitespace `rstrip` removes, after what it keeps. */
  lemma {:induction false} TrailingPadding(s: string) returns (post: string)
    ensures AllSpace(post) && s == TrimEnd(s) + post
    decreases |s|
  {
    if s == [] || !IsSpace(s[|s| - 1]) {
      post := [];
      assert s == s + post;
    } else {
      var init := s[..|s| - 1];
      var rest := TrailingPadding(init);
      post := rest + [s[|s| - 1]];
      assert s == init + [s[|s| - 1]];
      ConcatAssociative(TrimEnd(init), rest, [s[|s| - 1]]);
      forall i | 0 <= i < |post|
        ensures IsSpace(post[i])
      {
        if i < |rest| {
          assert post[i] == rest[i];
        }
      }
    }
  }

  lemma ConcatAssociative(a: string, b: string, c: string)
    ensures a + (b + c) == a + b + c
  {
  }

  /** What `lstrip` and then `rstrip` remove is whitespace padding on either side of what they keep. */
  lemma TrimsRemovePadding(s: string)
    ensures exists pre, post :: AllSpace(pre) && AllSpace(post) && s == pre + TrimEnd(TrimStart(s)) + post
  {
    var start := TrimStart(s);
    var pre := LeadingPadding(s);
    var post := TrailingPadding(start);
    ConcatAssociative(pre, TrimEnd(start), post);
  }

  /** `s.strip()`: empty exactly for a blank string, otherwise neither starting nor ending with whitespace. */
  function Strip(s: string): (t: string)
    ensures t == [] <==> AllSpace(s)
    ensures t != [] ==> !IsSpace(t[0]) && !IsSpace(t[|t| - 1])
  {
    var start := TrimStart(s);
    var t := TrimEnd(start);
    assert t == [] ==> AllSpace(s) by {
      if t == [] {
        forall i | 0 <= i < |s|
          ensures IsSpace(s[i])
        {
          if i >= |s| - |start| {
            assert s[i] == start[i - (|s| - |start|)];
          }
        }
      }
    }
    assert AllSpace(s) ==> start == [];
    t
  }

  /** Leading whitespace in front of a string that does not start with whitespace is all `lstrip` removes. */
  lemma {:induction false} TrimStartPadding(pre: string, rest: string)
    requires AllSpace(pre)
    requires rest == [] || !IsSpace(rest[0])
    ensures TrimStart(pre + rest) == rest
    decreases |pre|
  {
    if pre == [] {
      assert pre + rest == rest;
    } else {
      assert (pre + rest)[1..] == pre[1..] + rest;
      TrimStartPadding(pre[1..], rest);
    }
  }

  /** Trailing whitespace after a string that does not end with whitespace is all `rstrip` removes. */
  lemma {:induction false} TrimEndPadding(rest: string, post: string)
    requires AllSpace(post)
    requires rest == [] || !IsSpace(rest[|rest| - 1])
    ensures TrimEnd(rest + post) == rest
    decreases |post|
  {
    if post == [] {
      assert rest + post == rest;
    } else {
      var whole := rest + post;
      assert whole[..|whole| - 1] == rest + post[..|post| - 1];
      TrimEndPadding(rest, post[..|post| - 1]);
    }
  }

  /** `strip` gives back exactly the text between any whitespace padding. */
  lemma StripPadding(pre: string, core: string, post: string)
    requires AllSpace(pre) && AllSpace(post)
    requires core == [] || (!IsSpace(core[0]) && !IsSpace(core[|core| - 1]))
    ensures Strip(pre + core + post) == core
  {
    if core == [] {
      assert AllSpace(pre + core + post);
    } else {
      assert pre + core + post == pre + (core + post);
      TrimStartPadding(pre, core + post);
      TrimEndPadding(core, post);
    }
  }

  /** Stripping twice is stripping once. */
  lemma StripIdempotent(s: string)
    ensures Strip(Strip(s)) == Strip(s)
  {
    var t := Strip(s);
    assert [] + t + [] == t;
    StripPadding([], t, []);
  }

  /** A decimal digit. */
  function DigitChar(d: nat): (c: char)
    requires d < 10
    ensures '0' <= c <= '9' && DigitValue(c) == d
  {
    "0123456789"[d]
  }

  /** The value of one decimal digit character. */
  function DigitValue(c: char): int
  {
    c as int - '0' as int
  }

  /** `int(s)` for a run of decimal digits, most significant first. */
  function DecimalValue(s: string): int
  {
    if s == [] then 0 else DecimalValue(s[..|s| - 1]) * 10 + DigitValue(s[|s| - 1])
  }

  /** The decimal digits of `n`, most significant first, with no leading zero. */
  function Digits(n: nat): (s: string)
    ensures |s| > 0 && forall i :: 0 <= i < |s| ==> '0' <= s[i] <= '9'
    ensures s[0] == '0' <==> n == 0
  {
    if n < 10 then [DigitChar(n)] else Digits(n / 10) + [DigitChar(n % 10)]
  }

  /** The digits read back as a number give `n`: `int(str(n)) == n`. */
  lemma {:induction false} DigitsValue(n: nat)
    ensures DecimalValue(Digits(n)) == n
    decreases n
  {
    var s := Digits(n);
    if n < 10 {
      assert s[..|s| - 1] == [];
    } else {
      assert s[..|s| - 1] == Digits(n / 10);
      DigitsValue(n / 10);
    }
  }

  /** `int(s)` for the text of an integer: an optional minus sign, then decimal digits. */
  function IntValue(s: string): int
  {
    if s != [] && s[0] == '-' then -DecimalValue(s[1..]) else DecimalValue(s)
  }

  /**
   * `str(n)` for an integer: a minus sign exactly for a negative number,
   * then the digits with no leading zero; never blank.
   */
  function IntToString(n: int): (s: string)
    ensures |s| > 0 && !AllSpace(s)
    ensures s[0] == '-' <==> n < 0
    ensures forall i :: (if n < 0 then 1 else 0) <= i < |s| ==> '0' <= s[i] <= '9'
    ensures n < 0 ==> |s| > 1 && s[1] != '0'
    ensures n >= 0 && |s| > 1 ==> s[0] != '0'
  {
    var s := if n < 0 then "-" + Digits(-n) else Digits(n);
    assert !IsSpace(s[|s| - 1]);
    s
  }

  /** Reading the text of an integer back gives the integer: `int(str(n)) == n`. */
  lemma IntToStringValue(n: int)
    ensures IntValue(IntToString(n)) == n
  {
    var s := IntToString(n);
    var digits := Digits(if n < 0 then -n else n);
    DigitsValue(if n < 0 then -n else n);
    if n < 0 {
      assert s == "-" + digits && s[1..] == digits;
      assert IntValue(s) == -DecimalValue(digits);
    } else {
      assert s == digits && s[0] != '-';
      assert IntValue(s) == DecimalValue(digits);
    }
  }

  /** `str(data)`: what a `CharField` makes of a JSON value before it strips it. */
  function Text(v: Json): string
  {
    match v
    case JStr(s) => s
    case JInt(n) => IntToString(n)
  }

  /**
   * One required `CharField` of the input: `required` when the key is absent,
   * `blank` when its text is all whitespace, then, on the stripped text, the
   * validator that refuses a NUL character; otherwise no error.
   */
  function CheckField(data: map<string, Json>, name: string): (e: Option<FieldError>)
    ensures e == Some(Required) <==> name !in data
    ensures e == Some(Blank) <==> name in data && AllSpace(Text(data[name]))
    ensures e == Some(NullCharacter) <==> name in data && !AllSpace(Text(data[name])) && '\0' in Text(data[name])
    ensures e == None <==> name in data && !AllSpace(Text(data[name])) && '\0' !in Text(data[name])
  {
    if name !in data then Some(Required)
    else if Strip(Text(data[name])) == [] then Some(Blank)
    else if NullSurvivesStrip(Text(data[name])); '\0' in Strip(Text(data[name])) then Some(NullCharacter)
    else None
  }

  /** A NUL character is not whitespace, so `strip` keeps every one a text holds. */
  lemma NullSurvivesStrip(s: string)
    ensures '\0' in Strip(s) <==> '\0' in s
  {
    var start := TrimStart(s);
    var pre := LeadingPadding(s);
    var post := TrailingPadding(start);
    NoNullInSpace(pre);
    NoNullInSpace(post);
    assert '\0' in start <==> '\0' in TrimEnd(start);
  }

  /** Whitespace holds no NUL character. */
  lemma NoNullInSpace(s: string)
    requires AllSpace(s)
    ensures '\0' !in s
  {
  }

  /** A field's validated value: its text with surrounding whitespace stripped. */
  function CleanField(data: map<string, Json>, name: string): (value: string)
    requires name in data
    ensures value == Strip(Text(data[name]))
    ensures value == [] || (!IsSpace(value[0]) && !IsSpace(value[|value| - 1]))
    ensures exists pre, post :: AllSpace(pre) && AllSpace(post) && Text(data[name]) == pre + value + post
  {
    TrimsRemovePadding(Text(data[name]));
    Strip(Text(data[name]))
  }

  /**
   * `is_valid()` with `validated_data` or `errors`: refused, with the error of
   * each field, when a required field is absent, blank or holds a NUL
   * character; otherwise the four writable fields as stripped text, none of
   * them empty.
   */
  function Validate(data: map<string, Json>): (r: Result<UserInput, InputErrors>)
    ensures r.Ok? <==> && "username" in data && !AllSpace(Text(data["username"])) && '\0' !in Text(data["username"])
                       && "email" in data && !AllSpace(Text(data["email"])) && '\0' !in Text(data["email"])
                       && "dni" in data && !AllSpace(Text(data["dni"])) && '\0' !in Text(data["dni"])
                       && "password" in data && !AllSpace(Text(data["password"])) && '\0' !in Text(data["password"])
    ensures r.Err? ==> r.error == InputErrors(CheckField(data, "username"), CheckField(data, "email"),
                                              CheckField(data, "dni"), CheckField(data, "password"))
    ensures r.Ok? ==> && r.value.username == Strip(Text(data["username"])) && r.value.username != []
                      && r.value.email == Strip(Text(data["email"])) && r.value.email != []
                      && r.value.dni == Strip(Text(data["dni"])) && r.value.dni != []
                      && r.value.password == Strip(Text(data["password"])) && r.value.password != []
  {
    var errors := InputErrors(CheckField(data, "username"), CheckField(data, "email"),
                              CheckField(data, "dni"), CheckField(data, "password"));
    if errors != InputErrors(None, None, None, None) then Err(errors)
    else Ok(UserInput(CleanField(data, "username"), CleanField(data, "email"),
                      CleanField(data, "dni"), CleanField(data, "password")))
  }

  /** The output of the serializer never validates as input: the password it withholds is required there. */
  lemma RepresentationLacksPassword(u: Usuario)
    ensures Validate(ToRepresentation(u)).Err?
    ensures Validate(ToRepresentation(u)).error.password == Some(Required)
  {
  }

  /** When the user's fields are neither blank nor hold a NUL character, the missing password is the only error. */
  lemma RepresentationMissesOnlyPassword(u: Usuario)
    requires !AllSpace(u.username) && !AllSpace(u.email) && !AllSpace(u.dni)
    requires '\0' !in u.username && '\0' !in u.email && '\0' !in u.dni
    ensures Validate(ToRepresentation(u)) == Err(InputErrors(None, None, None, Some(Required)))
  {
  }

  /**
   * A user's output with a password added validates to the user's own fields,
   * when none of them is padded, blank or holds a NUL character.
   */
  lemma RepresentationRoundTrip(u: Usuario, password: string)
    requires Strip(u.username) == u.username != []
    requires Strip(u.email) == u.email != []
    requires Strip(u.dni) == u.dni != []
    requires Strip(password) == password != []
    requires '\0' !in u.username && '\0' !in u.email && '\0' !in u.dni && '\0' !in password
    ensures Validate(ToRepresentation(u)[("password") := JStr(password)])
            == Ok(UserInput(u.username, u.email, u.dni, password))
  {
  }

  /** An `id` in the input, of any value, changes nothing in the outcome. */
  lemma ValidateDropsId(data: map<string, Json>, id: Json)
    ensures Validate(data[("id") := id]) == Validate(data - {"id"})
  {
  }
}
