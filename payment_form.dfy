/** The card form of frontend/components/PaymentForm.tsx: the card-number
    formatter applied on every keystroke, the sanitisers of the other
    inputs, and the guard chain run on submit. */
module PaymentForm {
  import opened Wrappers
  import opened Seqs
  import opened Text
  import ReservationRoutes

  /** `s.slice(0, n)`. */
  function Take(s: string, n: nat): (r: string)
    ensures |r| == Min(|s|, n) && r == s[..|r|]
  {
    if |s| <= n then s else s[..n]
  }

  /** `cleaned.replace(/(\d{4})(?=\d)/g, '$1 ')`: on a string of digits,
      a space after every full group of four that another digit follows. */
  function Group(s: string): string
    decreases |s|
  {
    if |s| > 4 then s[..4] + " " + Group(s[4..]) else s
  }

  const CardFieldWidth: nat := 19
  const CardDigits: nat := 16

  /** `formatCardNumber`: the field holds at most 19 characters, digits
      in groups of four with a space after each full group that is not the
      end of the field, and the first min(d, 16) of the d digits typed. */
  function FormatCardNumber(value: string): (f: string)
    ensures |f| <= CardFieldWidth
    ensures forall i :: 0 <= i < |f| ==> f[i] == ' ' || IsDigit(f[i])
    ensures forall i :: 0 <= i < |f| ==> (f[i] == ' ') == (i % 5 == 4)
    ensures f != [] ==> f[|f| - 1] != ' '
    ensures KeepDigits(f) == KeepDigits(value)[..Min(|KeepDigits(value)|, CardDigits)]
  {
    var digits := KeepDigits(value);
    KeepDigitsAllDigits(value);
    FieldLayout(digits);
    FieldDigits(digits);
    Take(Group(digits), CardFieldWidth)
  }

  lemma KeepDigitsAllDigits(s: string)
    ensures AllDigits(KeepDigits(s))
  {
    var d := KeepDigits(s);
    assert forall k :: 0 <= k < |d| ==> d[k] in d;
  }

  /** The layout of grouped digits: digits, and a space exactly at the
      positions 4, 9, 14, ... */
  lemma {:induction false} GroupShape(s: string)
    requires AllDigits(s)
    ensures |Group(s)| == if s == [] then 0 else |s| + (|s| - 1) / 4
    ensures forall i :: 0 <= i < |Group(s)| ==> (Group(s)[i] == ' ') == (i % 5 == 4)
    ensures forall i :: 0 <= i < |Group(s)| ==> Group(s)[i] == ' ' || IsDigit(Group(s)[i])
    decreases |s|
  {
    if |s| > 4 {
      var rest := Group(s[4..]);
      GroupShape(s[4..]);
      var g := s[..4] + " " + rest;
      forall i | 0 <= i < |g| ensures (g[i] == ' ') == (i % 5 == 4) && (g[i] == ' ' || IsDigit(g[i])) {
        if i >= 5 {
          assert g[i] == rest[i - 5];
        }
      }
    }
  }

  /** Removing the spaces from grouped digits gives the digits back. */
  lemma {:induction false} GroupKeepsDigits(s: string)
    requires AllDigits(s)
    ensures KeepDigits(Group(s)) == s
    decreases |s|
  {
    if |s| > 4 {
      var rest := Group(s[4..]);
      GroupKeepsDigits(s[4..]);
      FilterConcat(s[..4] + " ", rest, IsDigit);
      FilterConcat(s[..4], " ", IsDigit);
      FilterKeepsAll(s[..4], IsDigit);
      assert s == s[..4] + s[4..];
    } else {
      FilterKeepsAll(s, IsDigit);
    }
  }

  /** Grouping a longer string starts with the grouping of its first n
      digits, for n a multiple of four. */
  lemma {:induction false} GroupPrefix(s: string, n: nat)
    requires 0 < n < |s| && n % 4 == 0
    ensures Group(s) == Group(s[..n]) + " " + Group(s[n..])
    decreases n
  {
    if n > 4 {
      GroupPrefix(s[4..], n - 4);
      assert s[4..][..n - 4] == s[4..n] && s[4..][n - 4..] == s[n..];
      assert s[..n][..4] == s[..4] && s[..n][4..] == s[4..n];
    } else {
      assert s[..n][..4] == s[..4];
    }
  }

  /** Grouping digits and cutting at 19 characters keeps the layout of
      the groups. */
  lemma FieldLayout(digits: string)
    requires AllDigits(digits)
    ensures var f := Take(Group(digits), CardFieldWidth);
            && |f| <= CardFieldWidth
            && (forall i :: 0 <= i < |f| ==> f[i] == ' ' || IsDigit(f[i]))
            && (forall i :: 0 <= i < |f| ==> (f[i] == ' ') == (i % 5 == 4))
            && (f != [] ==> f[|f| - 1] != ' ')
  {
    GroupShape(digits);
    var f := Take(Group(digits), CardFieldWidth);
    if f != [] {
      assert (|f| - 1) % 5 != 4;
    }
  }

  /** and the first min(d, 16) digits. */
  lemma FieldDigits(digits: string)
    requires AllDigits(digits)
    ensures KeepDigits(Take(Group(digits), CardFieldWidth)) == digits[..Min(|digits|, CardDigits)]
  {
    GroupShape(digits);
    GroupKeepsDigits(digits);
    if |digits| > CardDigits {
      GroupPrefix(digits, CardDigits);
      GroupShape(digits[..CardDigits]);
      GroupKeepsDigits(digits[..CardDigits]);
      assert Group(digits)[..CardFieldWidth] == Group(digits[..CardDigits]);
    } else {
      assert digits[..|digits|] == digits;
    }
  }

  /** `formatCardNumber` maps its own output to itself, so reformatting
      on every keystroke is stable. */
  lemma FormatIdempotent(value: string)
    ensures FormatCardNumber(FormatCardNumber(value)) == FormatCardNumber(value)
  {
    var digits := KeepDigits(value);
    KeepDigitsAllDigits(value);
    var again := KeepDigits(FormatCardNumber(value));
    GroupShape(digits);
    GroupKeepsDigits(digits);
    if |digits| > CardDigits {
      GroupPrefix(digits, CardDigits);
      GroupShape(digits[..CardDigits]);
      GroupKeepsDigits(digits[..CardDigits]);
    } else {
      assert again == digits;
    }
  }

  // ---------------------------------------------------------------------
  // The other inputs

  /** The CVV field: `value.replace(/\D/g, '').slice(0, 4)`. */
  function SanitizeCvv(value: string): (r: string)
    ensures AllDigits(r) && |r| == Min(|KeepDigits(value)|, 4) && r == KeepDigits(value)[..|r|]
  {
    KeepDigitsAllDigits(value);
    Take(KeepDigits(value), 4)
  }

  /** The month field: `value.slice(0, 2)`. */
  function SanitizeMonth(value: string): (r: string)
    ensures |r| == Min(|value|, 2) && r == value[..|r|]
  {
    Take(value, 2)
  }

  /** The year field: `value.slice(0, 4)`. */
  function SanitizeYear(value: string): (r: string)
    ensures |r| == Min(|value|, 4) && r == value[..|r|]
  {
    Take(value, 4)
  }

  // ---------------------------------------------------------------------
  // handleSubmit

  /** The body passed to `onSubmit`; a month or year that does not parse
      is NaN, written None. */
  datatype PaymentRequest = PaymentRequest(
    cardNumber: string, expiryMonth: Option<int>, expiryYear: Option<int>, cvv: string)

  datatype Submission = Refused(message: string) | Submitted(request: PaymentRequest)

  const ShortCardMessage: string := "Please enter a valid card number"
  const NotVisaMessage: string := "For testing, use a card number starting with 4 (e.g., 4111111111111111)"
  const MonthMessage: string := "Invalid expiry month"
  const YearMessage: string := "Invalid expiry year"
  const CvvMessage: string := "CVV must be 3-4 digits"
  const MinCardLength: nat := 13
  const MinYear: int := 2026
  const MaxYear: int := 2040

  /** `cardNumber.replace(/\s/g, '')`. */
  function StripSpaces(s: string): (r: string)
    ensures forall k :: 0 <= k < |r| ==> !IsJsSpace(r[k])
  {
    var r := Filter(s, (c: char) => !IsJsSpace(c));
    assert forall k :: 0 <= k < |r| ==> r[k] in r;
    r
  }

  /** `month < 1 || month > 12`: false for NaN. */
  predicate MonthRejected(month: Option<int>) {
    month.Some? && (month.value < 1 || month.value > 12)
  }

  /** `year < 2026 || year > 2040`: false for NaN. */
  predicate YearRejected(year: Option<int>) {
    year.Some? && (year.value < MinYear || year.value > MaxYear)
  }

  /** `handleSubmit`: the first failing guard sets its message and stops;
      when all pass, `onSubmit` receives the stripped card, the parsed
      month and year, and the CVV as typed. */
  function HandleSubmit(cardNumber: string, expiryMonth: string, expiryYear: string, cvv: string): (r: Submission)
    ensures var card := StripSpaces(cardNumber);
            var month := ParseInt(expiryMonth);
            var year := ParseInt(expiryYear);
            && (|card| < MinCardLength ==> r == Refused(ShortCardMessage))
            && (|card| >= MinCardLength && card[0] != '4' ==> r == Refused(NotVisaMessage))
            && (|card| >= MinCardLength && card[0] == '4' && MonthRejected(month) ==> r == Refused(MonthMessage))
            && (|card| >= MinCardLength && card[0] == '4' && !MonthRejected(month) && YearRejected(year) ==>
                  r == Refused(YearMessage))
            && ((|card| >= MinCardLength && card[0] == '4' && !MonthRejected(month) && !YearRejected(year) &&
                 |cvv| < 3) ==> r == Refused(CvvMessage))
            && (r.Submitted? <==> |card| >= MinCardLength && card[0] == '4' && !MonthRejected(month) &&
                                  !YearRejected(year) && |cvv| >= 3)
            && (r.Submitted? ==> r.request == PaymentRequest(card, month, year, cvv))
  {
    var cleanedCard := StripSpaces(cardNumber);
    if |cleanedCard| < MinCardLength then Refused(ShortCardMessage)
    else if cleanedCard[0] != '4' then Refused(NotVisaMessage)
    else
      var month := ParseInt(expiryMonth);
      var year := ParseInt(expiryYear);
      if MonthRejected(month) then Refused(MonthMessage)
      else if YearRejected(year) then Refused(YearMessage)
      else if |cvv| < 3 then Refused(CvvMessage)
      else Submitted(PaymentRequest(cleanedCard, month, year, cvv))
  }

  lemma StripSpacesOfDigits(s: string)
    requires AllDigits(s)
    ensures StripSpaces(s) == s
  {
    FilterKeepsAll(s, (c: char) => !IsJsSpace(c));
  }

  /** `parseInt` of a string that starts with a letter beyond 'f' is NaN. */
  lemma ParseIntOfLetters(s: string)
    requires |s| >= 1 && 'g' <= s[0] <= 'z'
    ensures ParseInt(s) == None
  {
    assert !IsJsSpace(s[0]);
    assert TrimStartJsSpace(s) == s;
  }

  /** A month that does not parse is not caught by the form: it passes
      the month guard and is sent as NaN. */
  lemma NonNumericMonthPasses(card: string, month: string, year: nat, cvv: string)
    requires AllDigits(card) && |card| >= MinCardLength && card[0] == '4'
    requires |month| >= 1 && 'g' <= month[0] <= 'z'
    requires MinYear <= year <= MaxYear && |cvv| >= 3
    ensures HandleSubmit(card, month, NatToDecimal(year), cvv) ==
            Submitted(PaymentRequest(card, None, Some(year), cvv))
  {
    StripSpacesOfDigits(card);
    ParseIntOfLetters(month);
    ParseIntOfDecimal(year);
  }

  // ---------------------------------------------------------------------
  // The form against the server

  /** What the form submits for a field filled through `formatCardNumber`:
      the first min(d, 16) digits typed. */
  lemma SubmittedCardOfField(value: string)
    ensures var digits := KeepDigits(value);
            StripSpaces(FormatCardNumber(value)) == digits[..Min(|digits|, CardDigits)]
  {
    var f := FormatCardNumber(value);
    FilterAgree(f, (c: char) => !IsJsSpace(c), IsDigit);
  }

  /** The form lets 13 to 16 digits through while `process_fake_payment`
      demands exactly 16: a card the form submits is declined by the
      server exactly when 13 to 15 digits starting with 4 were typed. */
  lemma CardRuleMismatch(value: string, amountCents: int, uuidHex: string)
    requires ReservationRoutes.IsUuidHex(uuidHex)
    ensures var digits := KeepDigits(value);
            var card := StripSpaces(FormatCardNumber(value));
            (|card| >= MinCardLength && card[0] == '4' &&
             ReservationRoutes.ProcessFakePayment(card, amountCents, uuidHex).Err?) <==>
            (MinCardLength <= |digits| < CardDigits && digits[0] == '4')
  {
    var digits := KeepDigits(value);
    KeepDigitsAllDigits(value);
    SubmittedCardOfField(value);
    var card := StripSpaces(FormatCardNumber(value));
    assert AllDigits(card);
    assert forall k :: 0 <= k < |card| ==> !ReservationRoutes.IsSeparator(card[k]);
    FilterKeepsAll(card, (c: char) => !ReservationRoutes.IsSeparator(c));
    assert ReservationRoutes.CleanCard(card) == card;
    if |digits| > 0 {
      assert card[..1] == digits[..1];
    }
  }
}
