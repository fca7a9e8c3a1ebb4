/** The RSVP endpoint (`POST /api/send-rsvp`): the e-mail body it renders
    from a guest's answers, a reader for that body, and the decisions the
    handler takes between parsing the request and answering it.  The request
    parser, the environment and the mail provider are inputs. */
module SendRsvp {
  import opened Wrappers
  import opened HtmlEscape

  /** The fixed recipient of every RSVP e-mail. */
  const ToEmail: string := "egorfedosuk@gmail.com"
  /** Sender used when no sender address is configured. */
  const DefaultFrom: string := "onboarding@resend.dev"
  const SubjectPrefix: string := "Анкета гостя: "
  const SubjectFallback: string := "Новый ответ"
  const ConfigMessage: string := "Сервер не настроен для отправки писем (RESEND_API_KEY отсутствует)."
  const FallbackErrorMessage: string := "Ошибка отправки"
  const Dash: string := "—"
  const Yes: string := "Да"
  const No: string := "Нет"

  // The fixed parts of the e-mail template, between the five substituted values.
  const Part0: string := "\n    <h2>Анкета гостя</h2>\n    <p><strong>ФИО:</strong> "
  const NextLine: string := "</p>\n    <p><strong>"
  const Part1: string := NextLine + "В каком составе ждать (ФИО гостей):</strong> "
  const Part2: string := NextLine + "Присутствие на торжестве:</strong> "
  const Part3: string := NextLine + "Нужен ли трансфер:</strong> "
  const Part4: string := NextLine + "Напитки:</strong> "
  const Part5: string := "</p>\n  "

  /** The `drinks` field as received: an array of strings, or any other value. */
  datatype Drinks = NotAnArray | List(items: seq<string>)

  /** The normalised body handed to the renderer (`RsvpBody`). */
  datatype RsvpBody = RsvpBody(lastName: string, firstName: string, attendance: string,
                               transfer: string, drinks: Drinks)

  /** The fields of the parsed request; `None` is a field that is absent or null. */
  datatype Payload = Payload(lastName: Option<string>, firstName: Option<string>,
                             attendance: Option<string>, transfer: Option<string>, drinks: Drinks)

  /** A thrown value: an `Error` carries its message, anything else does not. */
  datatype Thrown = ErrorObject(message: string) | OtherValue

  /** What `request.json()` and the destructuring of its result produce. */
  datatype RequestBody = Parsed(payload: Payload) | ParseFailed(thrown: Thrown)

  /** What the mail provider's `send` does. */
  datatype ProviderReply = Delivered | Rejected(message: string) | ProviderThrew(thrown: Thrown)

  datatype Email = Email(from: string, to: string, subject: string, html: string)

  datatype ResponseBody = SuccessBody | ErrorBody(error: string)

  datatype Response = Response(status: int, body: ResponseBody)

  /** The handler's answer and the e-mail it handed to the provider, if any. */
  datatype Handled = Handled(response: Response, providerCall: Option<Email>)

  /** The five display values as a reader of the e-mail sees them. */
  datatype EmailFields = EmailFields(lastName: string, firstName: string, attendance: string,
                                     transfer: string, drinks: string)

  // ---------------------------------------------------------------------
  // Rendering (`buildEmailHtml`)

  /** `s || '—'` on a string. */
  function OrDash(s: string): (r: string)
    ensures r != []
    ensures s != [] ==> r == s
  {
    if s == [] then Dash else s
  }

  /** The display text of an attendance or transfer answer. */
  function YesNoText(v: string): (r: string)
    ensures r != []
    ensures v == "yes" ==> r == Yes
    ensures v == "no" ==> r == No
    ensures v == "" ==> r == Dash
    ensures v != "yes" && v != "no" && v != "" ==> r == v
    ensures '<' !in v ==> '<' !in r
  {
    if v == "yes" then Yes else if v == "no" then No else OrDash(v)
  }

  /** `items.join(sep)`. */
  function Join(items: seq<string>, sep: string): (r: string)
    ensures items == [] ==> r == []
    ensures |items| == 1 ==> r == items[0]
  {
    if items == [] then []
    else if |items| == 1 then items[0]
    else items[0] + sep + Join(items[1..], sep)
  }

  /** Joining is a left fold: appending an item appends the separator and the item. */
  lemma {:induction false} JoinSnoc(items: seq<string>, x: string, sep: string)
    requires items != []
    ensures Join(items + [x], sep) == Join(items, sep) + sep + x
  {
    if |items| > 1 {
      assert (items + [x])[1..] == items[1..] + [x];
      JoinSnoc(items[1..], x, sep);
    } else {
      assert items + [x] == [items[0], x];
      assert [items[0], x][1..] == [x];
    }
  }

  /** The drinks line: the items joined by ", ", or a dash when there are none. */
  function DrinksText(d: Drinks): (r: string)
    ensures (d.NotAnArray? || d.items == []) ==> r == Dash
    ensures d.List? && d.items != [] ==> r == Join(d.items, ", ")
  {
    if d.List? && |d.items| > 0 then Join(d.items, ", ") else Dash
  }

  /** `buildEmailHtml`: the names and the drinks line are escaped, the
      attendance and transfer texts are interpolated as they are. */
  function BuildEmailHtml(data: RsvpBody): (r: string)
    ensures Part0 <= r && EndsWith(r, Part5)
  {
    var last, first := EscapeHtml(OrDash(data.lastName)), EscapeHtml(OrDash(data.firstName));
    var attendance, transfer := YesNoText(data.attendance), YesNoText(data.transfer);
    var drinks := EscapeHtml(DrinksText(data.drinks));
    Framed(Part0, last, Part1, first, Part2, attendance, Part3, transfer, Part4, drinks, Part5);
    Part0 + last + Part1 + first + Part2 + attendance + Part3 + transfer + Part4 + drinks + Part5
  }

  /** A text assembled from a head, the parts between and a tail starts with
      the head and ends with the tail. */
  lemma Framed(head: string, v0: string, p1: string, v1: string, p2: string, v2: string,
               p3: string, v3: string, p4: string, v4: string, tail: string)
    ensures var t := head + v0 + p1 + v1 + p2 + v2 + p3 + v3 + p4 + v4 + tail;
      head <= t && EndsWith(t, tail)
  {
  }

  /** The display values that `BuildEmailHtml` is meant to convey. */
  function DisplayFields(data: RsvpBody): EmailFields
  {
    EmailFields(OrDash(data.lastName), OrDash(data.firstName), YesNoText(data.attendance),
                YesNoText(data.transfer), DrinksText(data.drinks))
  }

  // ---------------------------------------------------------------------
  // Reading the e-mail back

  /** Splits `t` before its first `<`. */
  function SplitAtTag(t: string): (r: (string, string))
    ensures r.0 + r.1 == t
    ensures '<' !in r.0
    ensures r.1 == [] || r.1[0] == '<'
  {
    if t == [] then ([], [])
    else if t[0] == '<' then ([], t)
    else
      var (a, b) := SplitAtTag(t[1..]);
      assert [t[0]] + t[1..] == t;
      ([t[0]] + a, b)
  }

  /** Reads one substituted value: the text up to the next tag, which must
      open the template part `next`; returns the value and what follows `next`. */
  function TakeSlot(t: string, next: string): (r: Option<(string, string)>)
    ensures r.Some? ==> '<' !in r.value.0
  {
    var (slot, after) := SplitAtTag(t);
    if next <= after then Some((slot, after[|next|..])) else None
  }

  /** Reads one value before each closing template part in turn; the text
      must end exactly after the last one. */
  function ReadSlots(t: string, closers: seq<string>): (r: Option<seq<string>>)
    ensures r.Some? ==> |r.value| == |closers|
    ensures r.Some? ==> forall i :: 0 <= i < |r.value| ==> '<' !in r.value[i]
    decreases |closers|
  {
    if closers == [] then (if t == [] then Some([]) else None)
    else
      match TakeSlot(t, closers[0])
      case None => None
      case Some((v, rest)) =>
        match ReadSlots(rest, closers[1..])
        case None => None
        case Some(vs) => Some([v] + vs)
  }

  /** The template parts that follow each of the five substituted values. */
  function Closers(): (c: seq<string>)
    ensures |c| == 5
    ensures forall i :: 0 <= i < 5 ==> c[i] != [] && c[i][0] == '<'
  {
    assert NextLine[0] == '<' && Part5[0] == '<';
    [Part1, Part2, Part3, Part4, Part5]
  }

  /** Recovers the five display values from a rendered e-mail body, undoing
      the escaping of the fields that were escaped. */
  function ParseEmail(html: string): (r: Option<EmailFields>)
    ensures r.Some? ==> '<' !in r.value.attendance && '<' !in r.value.transfer
  {
    if !(Part0 <= html) then None
    else
      match ReadSlots(html[|Part0|..], Closers())
      case None => None
      case Some(vs) =>
        Some(EmailFields(UnescapeHtml(vs[0]), UnescapeHtml(vs[1]), vs[2], vs[3], UnescapeHtml(vs[4])))
  }

  /** Each value followed by its closing part. */
  function Fill(values: seq<string>, closers: seq<string>): string
    requires |values| == |closers|
  {
    if values == [] then [] else values[0] + closers[0] + Fill(values[1..], closers[1..])
  }

  lemma {:induction false} SplitAtTagPrefix(u: string, v: string)
    requires '<' !in u && v != [] && v[0] == '<'
    ensures SplitAtTag(u + v) == (u, v)
  {
    if u == [] {
      assert u + v == v;
    } else {
      assert (u + v)[0] == u[0] && u[0] in u;
      assert (u + v)[1..] == u[1..] + v;
      SplitAtTagPrefix(u[1..], v);
      assert [u[0]] + u[1..] == u;
    }
  }

  lemma TakeSlotOf(u: string, next: string, rest: string)
    requires '<' !in u && next != [] && next[0] == '<'
    ensures TakeSlot(u + next + rest, next) == Some((u, rest))
  {
    assert u + next + rest == u + (next + rest);
    SplitAtTagPrefix(u, next + rest);
    assert (next + rest)[|next|..] == rest;
  }

  /** Values without a `<` are read back exactly from between their closers. */
  lemma {:induction false} ReadFill(values: seq<string>, closers: seq<string>)
    requires |values| == |closers|
    requires forall i :: 0 <= i < |values| ==> '<' !in values[i]
    requires forall i :: 0 <= i < |closers| ==> closers[i] != [] && closers[i][0] == '<'
    ensures ReadSlots(Fill(values, closers), closers) == Some(values)
    decreases |values|
  {
    if values != [] {
      var rest := Fill(values[1..], closers[1..]);
      TakeSlotOf(values[0], closers[0], rest);
      ReadFill(values[1..], closers[1..]);
      assert [values[0]] + values[1..] == values;
    }
  }

  lemma FillFive(p0: string, s1: string, p1: string, s2: string, p2: string, s3: string, p3: string,
                 s4: string, p4: string, s5: string, p5: string)
    ensures p0 + s1 + p1 + s2 + p2 + s3 + p3 + s4 + p4 + s5 + p5
            == p0 + Fill([s1, s2, s3, s4, s5], [p1, p2, p3, p4, p5])
  {
    var c := [p1, p2, p3, p4, p5];
    var v := [s1, s2, s3, s4, s5];
    assert Fill(v[4..], c[4..]) == s5 + p5 + Fill([], []);
    assert Fill(v[3..], c[3..]) == s4 + p4 + Fill(v[4..], c[4..]);
    assert Fill(v[2..], c[2..]) == s3 + p3 + Fill(v[3..], c[3..]);
    assert Fill(v[1..], c[1..]) == s2 + p2 + Fill(v[2..], c[2..]);
    assert Fill(v, c) == s1 + p1 + Fill(v[1..], c[1..]);
  }

  lemma EscapedHasNoTag(s: string)
    ensures '<' !in EscapeHtml(s)
  {
    EscapeHtmlNoMarkup(s);
  }

  /** The five values as they are interpolated into the template. */
  function RenderedValues(data: RsvpBody): (vs: seq<string>)
    ensures |vs| == 5
  {
    [EscapeHtml(OrDash(data.lastName)), EscapeHtml(OrDash(data.firstName)),
     YesNoText(data.attendance), YesNoText(data.transfer), EscapeHtml(DrinksText(data.drinks))]
  }

  /** The e-mail is the opening part followed by each value and the part after it. */
  lemma BuildIsFill(data: RsvpBody)
    ensures BuildEmailHtml(data) == Part0 + Fill(RenderedValues(data), Closers())
  {
    var v := RenderedValues(data);
    FillFive(Part0, v[0], Part1, v[1], Part2, v[2], Part3, v[3], Part4, v[4], Part5);
  }

  /** The escaped values never contain `<`; the two answers do not when the guest's text does not. */
  lemma RenderedValuesHaveNoTag(data: RsvpBody)
    requires '<' !in data.attendance && '<' !in data.transfer
    ensures forall i :: 0 <= i < 5 ==> '<' !in RenderedValues(data)[i]
  {
    var last, first := OrDash(data.lastName), OrDash(data.firstName);
    var drinks := DrinksText(data.drinks);
    EscapedHasNoTag(last);
    EscapedHasNoTag(first);
    EscapedHasNoTag(drinks);
    NoTagInFive(EscapeHtml(last), EscapeHtml(first), YesNoText(data.attendance),
                YesNoText(data.transfer), EscapeHtml(drinks));
  }

  /** Five `<`-free strings, listed. */
  lemma NoTagInFive(a: string, b: string, c: string, d: string, e: string)
    requires '<' !in a && '<' !in b && '<' !in c && '<' !in d && '<' !in e
    ensures forall i :: 0 <= i < 5 ==> '<' !in [a, b, c, d, e][i]
  {
  }

  lemma DropPrefix(p: string, t: string)
    ensures p <= p + t && (p + t)[|p|..] == t
  {
  }

  /** Reading an e-mail built from `<`-free values gives those values, with
      the escaped ones unescaped. */
  lemma ParseFilled(v: seq<string>)
    requires |v| == 5 && forall i :: 0 <= i < 5 ==> '<' !in v[i]
    ensures ParseEmail(Part0 + Fill(v, Closers()))
            == Some(EmailFields(UnescapeHtml(v[0]), UnescapeHtml(v[1]), v[2], v[3], UnescapeHtml(v[4])))
  {
    ReadFill(v, Closers());
    DropPrefix(Part0, Fill(v, Closers()));
  }

  /** Every value of the e-mail can be read back exactly, provided the two
      unescaped answers carry no `<` of their own. */
  lemma EmailRoundTrip(data: RsvpBody)
    requires '<' !in data.attendance && '<' !in data.transfer
    ensures ParseEmail(BuildEmailHtml(data)) == Some(DisplayFields(data))
  {
    BuildIsFill(data);
    RenderedValuesHaveNoTag(data);
    ParseFilled(RenderedValues(data));
    UnescapeEscape(OrDash(data.lastName));
    UnescapeEscape(OrDash(data.firstName));
    UnescapeEscape(DrinksText(data.drinks));
  }

  /** A guest who answers `yes` and `no` and picks two drinks reads back with
      the localised answers and the drinks joined by a comma. */
  lemma AnswersReadBack(data: RsvpBody, first: string, second: string)
    requires data.attendance == "yes" && data.transfer == "no"
    requires data.drinks == List([first, second])
    ensures ParseEmail(BuildEmailHtml(data))
            == Some(EmailFields(OrDash(data.lastName), OrDash(data.firstName), Yes, No, first + ", " + second))
  {
    EmailRoundTrip(data);
    assert Join([first, second], ", ") == first + ", " + second;
  }

  /** True when `sub` occurs in `t`. */
  predicate Contains(t: string, sub: string)
  {
    exists i :: 0 <= i <= |t| && sub <= t[i..]
  }

  lemma ContainsFirstValue(p: string, values: seq<string>, closers: seq<string>)
    requires |values| == |closers| > 0
    ensures Contains(p + Fill(values, closers), values[0])
  {
    var v, rest := values[0], closers[0] + Fill(values[1..], closers[1..]);
    assert Fill(values, closers) == v + rest;
    assert p + Fill(values, closers) == p + v + rest;
    ContainsAfter(p, v, rest);
  }

  /** Text placed after a prefix occurs in the whole. */
  lemma ContainsAfter(p: string, v: string, rest: string)
    ensures Contains(p + v + rest, v)
  {
    var t := p + v + rest;
    assert t[|p|..] == v + rest;
    assert v <= t[|p|..];
  }

  /** The e-mail carries the last name (or its dash) in escaped form. */
  lemma ContainsEscapedLastName(data: RsvpBody)
    ensures Contains(BuildEmailHtml(data), EscapeHtml(OrDash(data.lastName)))
  {
    BuildIsFill(data);
    ContainsFirstValue(Part0, RenderedValues(data), Closers());
  }

  /** An attendance or transfer answer other than `yes`, `no` and the empty
      string appears in the e-mail exactly as the guest typed it. */
  lemma AnswersInterpolatedRaw(data: RsvpBody)
    ensures data.attendance != "yes" && data.attendance != "no" && data.attendance != ""
            ==> Contains(BuildEmailHtml(data), data.attendance)
    ensures data.transfer != "yes" && data.transfer != "no" && data.transfer != ""
            ==> Contains(BuildEmailHtml(data), data.transfer)
  {
    var last, first := EscapeHtml(OrDash(data.lastName)), EscapeHtml(OrDash(data.firstName));
    var drinks := EscapeHtml(DrinksText(data.drinks));
    ContainsMiddle(Part0, last, Part1, first, Part2, YesNoText(data.attendance),
                   Part3, YesNoText(data.transfer), Part4, drinks, Part5);
  }

  /** The third and fourth values of a filled template occur in it. */
  lemma ContainsMiddle(head: string, v0: string, p1: string, v1: string, p2: string, v2: string,
                       p3: string, v3: string, p4: string, v4: string, tail: string)
    ensures var t := head + v0 + p1 + v1 + p2 + v2 + p3 + v3 + p4 + v4 + tail;
      Contains(t, v2) && Contains(t, v3)
  {
    var t := head + v0 + p1 + v1 + p2 + v2 + p3 + v3 + p4 + v4 + tail;
    assert t == (head + v0 + p1 + v1 + p2) + v2 + (p3 + v3 + p4 + v4 + tail);
    ContainsAfter(head + v0 + p1 + v1 + p2, v2, p3 + v3 + p4 + v4 + tail);
    assert t == (head + v0 + p1 + v1 + p2 + v2 + p3) + v3 + (p4 + v4 + tail);
    ContainsAfter(head + v0 + p1 + v1 + p2 + v2 + p3, v3, p4 + v4 + tail);
  }

  /** An attendance answer that carries markup of its own is placed in the
      e-mail unescaped, so a reader of the e-mail cannot get the answer back. */
  lemma AttendanceMarkupNotEscaped(data: RsvpBody)
    requires '<' in data.attendance
    ensures Contains(BuildEmailHtml(data), data.attendance)
    ensures ParseEmail(BuildEmailHtml(data)) != Some(DisplayFields(data))
  {
    AnswersInterpolatedRaw(data);
    assert YesNoText(data.attendance) == data.attendance;
  }

  // ---------------------------------------------------------------------
  // The handler (`POST`)

  /** JavaScript truthiness of an optional string: `undefined` and `''` are
      falsy, every other string is truthy. */
  function Truthy(v: Option<string>): (b: bool)
    ensures v.None? ==> !b
    ensures v.Some? ==> (b <==> |v.value| > 0)
  {
    v.Some? && v.value != []
  }

  /** `v ?? ''`. */
  function OrEmpty(v: Option<string>): (r: string)
    ensures Truthy(v) <==> r != []
    ensures v.Some? ==> r == v.value
  {
    if v.Some? then v.value else []
  }

  /** The body passed to `buildEmailHtml`: absent fields become empty strings
      and a `drinks` value that is not an array becomes the empty list. */
  function Normalize(p: Payload): (b: RsvpBody)
    ensures b.lastName == OrEmpty(p.lastName) && b.firstName == OrEmpty(p.firstName)
    ensures b.attendance == OrEmpty(p.attendance) && b.transfer == OrEmpty(p.transfer)
    ensures b.drinks.List?
    ensures p.drinks.List? ==> b.drinks == p.drinks
  {
    RsvpBody(OrEmpty(p.lastName), OrEmpty(p.firstName), OrEmpty(p.attendance), OrEmpty(p.transfer),
             if p.drinks.List? then p.drinks else List([]))
  }

  /** `'Анкета гостя: ' + (lastName || firstName || 'Новый ответ')`. */
  function Subject(p: Payload): (s: string)
    ensures Truthy(p.lastName) ==> s == SubjectPrefix + p.lastName.value
    ensures !Truthy(p.lastName) && Truthy(p.firstName) ==> s == SubjectPrefix + p.firstName.value
    ensures !Truthy(p.lastName) && !Truthy(p.firstName) ==> s == SubjectPrefix + SubjectFallback
  {
    SubjectPrefix + (if Truthy(p.lastName) then p.lastName.value
                     else if Truthy(p.firstName) then p.firstName.value
                     else SubjectFallback)
  }

  /** `RESEND_FROM_EMAIL || 'onboarding@resend.dev'`. */
  function Sender(fromEnv: Option<string>): (s: string)
    ensures s != []
    ensures Truthy(fromEnv) ==> s == fromEnv.value
    ensures !Truthy(fromEnv) ==> s == DefaultFrom
  {
    if Truthy(fromEnv) then fromEnv.value else DefaultFrom
  }

  /** The answer built in the `catch` block. */
  function ExceptionResponse(e: Thrown): (r: Response)
    ensures r.status == 500 && r.body.ErrorBody?
    ensures e.ErrorObject? ==> r.body.error == e.message
    ensures e.OtherValue? ==> r.body.error == FallbackErrorMessage
  {
    Response(500, ErrorBody(if e.ErrorObject? then e.message else FallbackErrorMessage))
  }

  /** The handler: parse, check the key, render, send, answer. */
  function Post(request: RequestBody, apiKey: Option<string>, fromEnv: Option<string>,
                reply: ProviderReply): (h: Handled)
    ensures h.providerCall.Some? <==> request.Parsed? && Truthy(apiKey)
    ensures h.response.status == 200 <==> h.providerCall.Some? && reply.Delivered?
    ensures h.response.status == 200 || h.response.status == 500
    ensures h.response.status == 200 <==> h.response.body.SuccessBody?
  {
    match request
    case ParseFailed(e) => Handled(ExceptionResponse(e), None)
    case Parsed(p) =>
      if !Truthy(apiKey) then Handled(Response(500, ErrorBody(ConfigMessage)), None)
      else
        var email := Email(Sender(fromEnv), ToEmail, Subject(p), BuildEmailHtml(Normalize(p)));
        match reply
        case Delivered => Handled(Response(200, SuccessBody), Some(email))
        case Rejected(msg) => Handled(Response(500, ErrorBody(msg)), Some(email))
        case ProviderThrew(e) => Handled(ExceptionResponse(e), Some(email))
  }

  /** Without a key the handler answers 500 with the configuration message and
      never calls the provider, whatever the provider would have done. */
  lemma PostWithoutKey(p: Payload, apiKey: Option<string>, fromEnv: Option<string>, reply: ProviderReply)
    requires !Truthy(apiKey)
    ensures Post(Parsed(p), apiKey, fromEnv, reply) == Handled(Response(500, ErrorBody(ConfigMessage)), None)
  {
  }

  /** A request that cannot be parsed fails before the key is looked at. */
  lemma PostParseFailure(e: Thrown, apiKey: Option<string>, fromEnv: Option<string>, reply: ProviderReply)
    ensures Post(ParseFailed(e), apiKey, fromEnv, reply) == Handled(ExceptionResponse(e), None)
  {
  }

  /** The e-mail handed to the provider: sender, fixed recipient, subject and
      the body rendered from the normalised payload. */
  lemma PostEmail(p: Payload, apiKey: Option<string>, fromEnv: Option<string>, reply: ProviderReply)
    requires Truthy(apiKey)
    ensures Post(Parsed(p), apiKey, fromEnv, reply).providerCall
            == Some(Email(Sender(fromEnv), ToEmail, Subject(p), BuildEmailHtml(Normalize(p))))
  {
  }

  /** The e-mail handed to the provider reads back as the guest's answers:
      the names (or the dash), the localised answers and the drinks line,
      whenever the two answers carry no `<`. */
  lemma PostDeliversAnswers(p: Payload, apiKey: Option<string>, fromEnv: Option<string>, reply: ProviderReply)
    requires Truthy(apiKey)
    requires '<' !in OrEmpty(p.attendance) && '<' !in OrEmpty(p.transfer)
    ensures Post(Parsed(p), apiKey, fromEnv, reply).providerCall.Some?
    ensures ParseEmail(Post(Parsed(p), apiKey, fromEnv, reply).providerCall.value.html)
            == Some(EmailFields(OrDash(OrEmpty(p.lastName)), OrDash(OrEmpty(p.firstName)),
                                YesNoText(OrEmpty(p.attendance)), YesNoText(OrEmpty(p.transfer)),
                                DrinksText(Normalize(p).drinks)))
  {
    PostEmail(p, apiKey, fromEnv, reply);
    EmailRoundTrip(Normalize(p));
  }

  /** The answer once the provider has been called. */
  lemma PostProviderOutcome(p: Payload, apiKey: Option<string>, fromEnv: Option<string>, reply: ProviderReply)
    requires Truthy(apiKey)
    ensures reply.Delivered? ==> Post(Parsed(p), apiKey, fromEnv, reply).response == Response(200, SuccessBody)
    ensures reply.Rejected? ==> Post(Parsed(p), apiKey, fromEnv, reply).response == Response(500, ErrorBody(reply.message))
    ensures reply.ProviderThrew? ==> Post(Parsed(p), apiKey, fromEnv, reply).response == ExceptionResponse(reply.thrown)
  {
  }

  /** The dash contains none of the escaped characters. */
  lemma EscapeDash()
    ensures EscapeHtml(Dash) == Dash
  {
  }

  /** A `drinks` value that is missing or not an array renders as a dash, the
      same as an empty list: the e-mail ends with the dash in the drinks line. */
  lemma MissingDrinksRenderDash(p: Payload)
    requires p.drinks.NotAnArray?
    ensures Normalize(p).drinks == List([])
    ensures EndsWith(BuildEmailHtml(Normalize(p)), Part4 + Dash + Part5)
  {
    var b := Normalize(p);
    EscapeDash();
    assert EscapeHtml(DrinksText(b.drinks)) == Dash;
    var head := Part0 + EscapeHtml(OrDash(b.lastName)) + Part1 + EscapeHtml(OrDash(b.firstName))
                + Part2 + YesNoText(b.attendance) + Part3 + YesNoText(b.transfer);
    EndsWithLast(head, Part4, EscapeHtml(DrinksText(b.drinks)), Part5);
  }

  lemma EndsWithLast(head: string, p: string, v: string, q: string)
    ensures EndsWith(head + p + v + q, p + v + q)
  {
    assert head + p + v + q == head + (p + v + q);
  }

  predicate EndsWith(t: string, suffix: string)
  {
    |suffix| <= |t| && t[|t| - |suffix|..] == suffix
  }
}
