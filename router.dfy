/** The product routes: for each route, the ordered chain of field checks
    with their messages, the gate that answers 400 with every failed
    check's message, and the dispatch to the product handlers when no check
    fails.

    A request is abstracted to its route, the text of its `:id` path
    parameter, and its three body fields. The checks are abstracted to
    predicates over those fields (see `Passes`). */
module Router {
  import opened Numerals
  import opened Products

  /** A body field as it arrives in the JSON body. */
  datatype Field = Absent | Text(s: string) | Num(n: int) | Bool(b: bool)

  datatype RequestBody = RequestBody(name: Field, price: Field, availability: Field)

  const EmptyBody := RequestBody(Absent, Absent, Absent)

  /** The routes mounted under /api/products. */
  datatype Route =
    | GetRoot    // GET    /
    | GetId      // GET    /:id
    | PostRoot   // POST   /
    | PutId      // PUT    /:id
    | PatchId    // PATCH  /:id
    | DeleteId   // DELETE /:id

  datatype Request = Request(route: Route, id: string, body: RequestBody)

  /** Where a check reads its value from. */
  datatype Target = PathId | NameField | PriceField | AvailabilityField

  datatype Check = IntCheck | NotEmpty | IsNumeric | GreaterThanZero | IsBoolean

  /** One link of a validator chain: a check on one value and the message
      reported when it fails. */
  datatype Rule = Rule(target: Target, check: Check, msg: string)

  const IdMessage := "Id no valido"
  const NameEmptyMessage := "El nombre del propducto no pudde ir vacion"
  const PriceNumericMessage := "Valor no valido"
  const PriceEmptyMessage := "El precio del propducto no pudde ir vacion"
  const PricePositiveMessage := "Precio no valido"
  const AvailabilityMessage := "El valor para la disponibilidad no válido"

  // ------------------------------------------------------------ the checks

  /** `notEmpty` fails on a missing field and on empty text. A number or a
      boolean is converted to its text ("0", "false"), which is never empty. */
  predicate IsEmptyField(f: Field)
    ensures IsEmptyField(f) ==> !f.Num? && !f.Bool?
    ensures f.Text? ==> (IsEmptyField(f) <==> f.s == "")
  {
    f.Absent? || f == Text("")
  }

  /** `isNumeric`: a number, or text that is an integer. */
  predicate IsNumericField(f: Field)
    ensures IsNumericField(f) ==> !IsEmptyField(f)
    ensures f.Absent? || f.Bool? ==> !IsNumericField(f)
  {
    f.Num? || (f.Text? && IsInt(f.s))
  }

  /** `value > 0`: a number compares as itself, integer text as its value,
      `true` as 1; `undefined` and `false` are not greater than 0. Text that
      is not an integer is taken as not greater than 0 (JavaScript's own
      reading of text such as "1e3" is not modelled). */
  predicate IsPositiveField(f: Field)
    ensures IsPositiveField(f) ==> !IsEmptyField(f)
    ensures f.Num? ==> (IsPositiveField(f) <==> f.n > 0)
    ensures f.Text? && IsPositiveField(f) ==> IsInt(f.s) && ParseInt(f.s) > 0
    ensures f == Text("0") || f == Num(0) || f == Bool(false) ==> !IsPositiveField(f)
  {
    match f
    case Absent => false
    case Text(s) => IsInt(s) && ParseInt(s) > 0
    case Num(n) => n > 0
    case Bool(b) => b
  }

  /** One check applied to one value. Every check other than `notEmpty`
      fails on an empty value, so an absent price fails all three price
      checks. */
  predicate Passes(c: Check, f: Field)
    ensures !c.NotEmpty? && Passes(c, f) ==> !IsEmptyField(f)
    ensures c.NotEmpty? ==> (Passes(c, f) <==> !IsEmptyField(f))
    ensures c.IsBoolean? ==> (Passes(c, f) <==> f.Bool?)
    ensures c.IntCheck? && Passes(c, f) ==> f.Text? && IsInt(f.s)
  {
    match c
    case IntCheck => f.Text? && IsInt(f.s)
    case NotEmpty => !IsEmptyField(f)
    case IsNumeric => IsNumericField(f)
    case GreaterThanZero => IsPositiveField(f)
    case IsBoolean => f.Bool?
  }

  function Value(req: Request, t: Target): Field {
    match t
    case PathId => Text(req.id)
    case NameField => req.body.name
    case PriceField => req.body.price
    case AvailabilityField => req.body.availability
  }

  predicate Holds(rule: Rule, req: Request) {
    Passes(rule.check, Value(req, rule.target))
  }

  // ------------------------------------------------------- the rule chains

  const IdRules := [Rule(PathId, IntCheck, IdMessage)]
  const NameRules := [Rule(NameField, NotEmpty, NameEmptyMessage)]
  const PriceRules := [
    Rule(PriceField, IsNumeric, PriceNumericMessage),
    Rule(PriceField, NotEmpty, PriceEmptyMessage),
    Rule(PriceField, GreaterThanZero, PricePositiveMessage)
  ]
  const AvailabilityRules := [Rule(AvailabilityField, IsBoolean, AvailabilityMessage)]

  /** The checks declared on each route, in declaration order. Only
      GET `/` has none; every route addressed by `/:id` starts with the id
      check, and the id check is the only one that reads the path. */
  function Rules(route: Route): (rules: seq<Rule>)
    ensures rules == [] <==> route.GetRoot?
    ensures (|rules| > 0 && rules[0] == IdRules[0]) <==>
              route.GetId? || route.PutId? || route.PatchId? || route.DeleteId?
    ensures forall i :: 0 <= i < |rules| ==> (rules[i].target.PathId? <==> rules[i].check.IntCheck?)
    ensures route.PostRoot? ==> |rules| == 4
    ensures route.PutId? ==> |rules| == 6
  {
    match route
    case GetRoot => []
    case GetId => IdRules
    case PostRoot => NameRules + PriceRules
    case PutId => IdRules + NameRules + PriceRules + AvailabilityRules
    case PatchId => IdRules
    case DeleteId => IdRules
  }

  /** Runs every rule and collects the message of each one that fails, in
      rule order; a failure does not stop the later rules. */
  function Run(rules: seq<Rule>, req: Request): (msgs: seq<string>)
    ensures |msgs| <= |rules|
    ensures msgs == [] <==> forall i :: 0 <= i < |rules| ==> Holds(rules[i], req)
  {
    if rules == [] then []
    else
      var tail := Run(rules[1..], req);
      assert forall i :: 1 <= i < |rules| ==> rules[i] == rules[1..][i - 1];
      (if Holds(rules[0], req) then [] else [rules[0].msg]) + tail
  }

  /** Every reported message belongs to a rule that failed, and every rule
      that failed has its message reported. */
  lemma {:induction false} RunReportsFailures(rules: seq<Rule>, req: Request)
    ensures forall m :: m in Run(rules, req) ==>
              exists i :: 0 <= i < |rules| && !Holds(rules[i], req) && rules[i].msg == m
    ensures forall i :: 0 <= i < |rules| && !Holds(rules[i], req) ==> rules[i].msg in Run(rules, req)
  {
    if rules != [] {
      RunReportsFailures(rules[1..], req);
      var tail := Run(rules[1..], req);
      forall m | m in Run(rules, req)
        ensures exists i :: 0 <= i < |rules| && !Holds(rules[i], req) && rules[i].msg == m
      {
        if m in tail {
          var j :| 0 <= j < |rules| - 1 && !Holds(rules[1..][j], req) && rules[1..][j].msg == m;
          assert rules[j + 1] == rules[1..][j];
        }
      }
      forall i | 0 <= i < |rules| && !Holds(rules[i], req)
        ensures rules[i].msg in Run(rules, req)
      {
        if i > 0 {
          assert rules[i] == rules[1..][i - 1];
        }
      }
    }
  }

  /** Running two chains one after the other reports the messages of the
      first, then those of the second. */
  lemma {:induction false} RunAppend(a: seq<Rule>, b: seq<Rule>, req: Request)
    ensures Run(a + b, req) == Run(a, req) + Run(b, req)
  {
    if a != [] {
      assert (a + b)[1..] == a[1..] + b;
      RunAppend(a[1..], b, req);
      assert (a + b)[0] == a[0];
    } else {
      assert a + b == b;
    }
  }

  lemma RunOne(rule: Rule, req: Request)
    ensures Run([rule], req) == if Holds(rule, req) then [] else [rule.msg]
  {
  }

  /** The route's chain passes exactly when every check in it holds. */
  lemma RulesPassIffAccepts(req: Request)
    ensures Run(Rules(req.route), req) == [] <==> Accepts(req)
  {
    var rules := Rules(req.route);
    match req.route
    case GetRoot =>
    case PostRoot =>
      assert rules == [NameRules[0], PriceRules[0], PriceRules[1], PriceRules[2]];
      assert (forall i :: 0 <= i < |rules| ==> Holds(rules[i], req)) <==>
        Holds(rules[0], req) && Holds(rules[1], req) && Holds(rules[2], req) && Holds(rules[3], req);
    case PutId =>
      assert rules == [IdRules[0], NameRules[0], PriceRules[0], PriceRules[1], PriceRules[2], AvailabilityRules[0]];
      assert (forall i :: 0 <= i < |rules| ==> Holds(rules[i], req)) <==>
        Holds(rules[0], req) && Holds(rules[1], req) && Holds(rules[2], req) &&
        Holds(rules[3], req) && Holds(rules[4], req) && Holds(rules[5], req);
    case _ =>
      assert rules == IdRules;
  }

  /** The messages the validators of the request's route report. */
  function Validate(req: Request): (msgs: seq<string>)
    ensures |msgs| <= |Rules(req.route)|
    ensures msgs == [] <==> Accepts(req)
  {
    RulesPassIffAccepts(req);
    Run(Rules(req.route), req)
  }

  /** An independent statement of which requests get past validation. */
  predicate Accepts(req: Request) {
    var idOk := IsInt(req.id);
    var nameOk := !IsEmptyField(req.body.name);
    var priceOk := IsNumericField(req.body.price) && !IsEmptyField(req.body.price) && IsPositiveField(req.body.price);
    var availabilityOk := req.body.availability.Bool?;
    match req.route
    case GetRoot => true
    case GetId => idOk
    case PostRoot => nameOk && priceOk
    case PutId => idOk && nameOk && priceOk && availabilityOk
    case PatchId => idOk
    case DeleteId => idOk
  }

  // ------------------------------------------------ what each route reports

  function Report(ok: bool, msg: string): seq<string> {
    if ok then [] else [msg]
  }

  lemma RunPriceRules(req: Request)
    ensures Run(PriceRules, req) ==
              Report(IsNumericField(req.body.price), PriceNumericMessage) +
              Report(!IsEmptyField(req.body.price), PriceEmptyMessage) +
              Report(IsPositiveField(req.body.price), PricePositiveMessage)
  {
    var r0, r1, r2 := PriceRules[0], PriceRules[1], PriceRules[2];
    assert PriceRules == [r0] + ([r1] + [r2]);
    RunAppend([r1], [r2], req);
    RunAppend([r0], [r1] + [r2], req);
    RunOne(r0, req);
    RunOne(r1, req);
    RunOne(r2, req);
  }

  lemma RunRules(req: Request)
    ensures Run(IdRules, req) == Report(IsInt(req.id), IdMessage)
    ensures Run(NameRules, req) == Report(!IsEmptyField(req.body.name), NameEmptyMessage)
    ensures Run(PriceRules, req) ==
              Report(IsNumericField(req.body.price), PriceNumericMessage) +
              Report(!IsEmptyField(req.body.price), PriceEmptyMessage) +
              Report(IsPositiveField(req.body.price), PricePositiveMessage)
    ensures Run(AvailabilityRules, req) == Report(req.body.availability.Bool?, AvailabilityMessage)
  {
    RunOne(IdRules[0], req);
    RunOne(NameRules[0], req);
    RunOne(AvailabilityRules[0], req);
    RunPriceRules(req);
  }

  /** The exact, ordered list of messages each route reports: one entry per
      failed check, in the order the checks are declared, and nothing else. */
  lemma {:induction false} ValidateInOrder(req: Request)
    ensures var b := req.body;
            var id := Report(IsInt(req.id), IdMessage);
            var name := Report(!IsEmptyField(b.name), NameEmptyMessage);
            var price := Report(IsNumericField(b.price), PriceNumericMessage) +
                         Report(!IsEmptyField(b.price), PriceEmptyMessage) +
                         Report(IsPositiveField(b.price), PricePositiveMessage);
            var availability := Report(b.availability.Bool?, AvailabilityMessage);
            Validate(req) == match req.route
                             case GetRoot => []
                             case PostRoot => name + price
                             case PutId => id + name + price + availability
                             case _ => id
  {
    RunRules(req);
    match req.route
    case PostRoot =>
      RunAppend(NameRules, PriceRules, req);
    case PutId =>
      RunAppend(IdRules, NameRules, req);
      RunAppend(IdRules + NameRules, PriceRules, req);
      RunAppend(IdRules + NameRules + PriceRules, AvailabilityRules, req);
    case _ =>
  }

  /** GET, PATCH and DELETE on `/:id` with a path id that is not an integer
      report exactly one message, "Id no valido". */
  lemma IdRoutesRejectNonInteger(route: Route, id: string, body: RequestBody)
    requires route.GetId? || route.PatchId? || route.DeleteId?
    requires !IsInt(id)
    ensures Validate(Request(route, id, body)) == [IdMessage]
  {
  }

  lemma NotValidUrlRejected(route: Route, body: RequestBody)
    requires route.GetId? || route.PatchId? || route.DeleteId?
    ensures Validate(Request(route, "not-valid-url", body)) == [IdMessage]
    ensures Validate(Request(route, "Hob", body)) == [IdMessage]
  {
  }

  /** POST with an empty body reports four messages: the name is empty, and
      the absent price is neither numeric, nor present, nor positive. */
  lemma CreateEmptyBody(id: string)
    ensures Validate(Request(PostRoot, id, EmptyBody)) ==
              [NameEmptyMessage, PriceNumericMessage, PriceEmptyMessage, PricePositiveMessage]
  {
    ValidateInOrder(Request(PostRoot, id, EmptyBody));
  }

  /** A numeric price that is not positive (0 on POST, -300 on PUT) fails
      only the `> 0` check. */
  lemma CreateNonPositivePrice(id: string, name: Field, n: int, availability: Field)
    requires !IsEmptyField(name) && n <= 0
    ensures Validate(Request(PostRoot, id, RequestBody(name, Num(n), availability))) == [PricePositiveMessage]
  {
    ValidateInOrder(Request(PostRoot, id, RequestBody(name, Num(n), availability)));
  }

  /** A price given as non-empty text that is not a number ("Hola") fails
      both `isNumeric` and `> 0`, but not `notEmpty`. */
  lemma CreateNonNumericTextPrice(id: string, name: Field, s: string, availability: Field)
    requires !IsEmptyField(name) && s != "" && !IsInt(s)
    ensures Validate(Request(PostRoot, id, RequestBody(name, Text(s), availability))) ==
              [PriceNumericMessage, PricePositiveMessage]
  {
    ValidateInOrder(Request(PostRoot, id, RequestBody(name, Text(s), availability)));
  }

  lemma HolaIsNotNumeric()
    ensures Validate(Request(PostRoot, "", RequestBody(Text("Monitor Curvo - Testing"), Text("Hola"), Absent))) ==
              [PriceNumericMessage, PricePositiveMessage]
  {
  }

  /** The two-message outcome is not general for non-numeric prices: `true`
      is not numeric, yet `true > 0` holds in JavaScript, so only one message
      is reported. */
  lemma CreateTruePrice(id: string, name: Field, availability: Field)
    requires !IsEmptyField(name)
    ensures Validate(Request(PostRoot, id, RequestBody(name, Bool(true), availability))) == [PriceNumericMessage]
  {
    ValidateInOrder(Request(PostRoot, id, RequestBody(name, Bool(true), availability)));
  }

  /** A non-empty name and a positive number pass every POST check, so the
      request reaches the handler. */
  lemma CreateValid(id: string, name: Field, n: int, availability: Field)
    requires !IsEmptyField(name) && n > 0
    ensures Validate(Request(PostRoot, id, RequestBody(name, Num(n), availability))) == []
  {
  }

  /** PUT with a valid id and an empty body reports five messages: the four
      of POST and the availability one. */
  lemma UpdateEmptyBody(id: string)
    requires IsInt(id)
    ensures Validate(Request(PutId, id, EmptyBody)) ==
              [NameEmptyMessage, PriceNumericMessage, PriceEmptyMessage, PricePositiveMessage, AvailabilityMessage]
  {
    ValidateInOrder(Request(PutId, id, EmptyBody));
  }

  lemma UpdateNonPositivePrice(id: string, name: Field, n: int, availability: bool)
    requires IsInt(id) && !IsEmptyField(name) && n <= 0
    ensures Validate(Request(PutId, id, RequestBody(name, Num(n), Bool(availability)))) == [PricePositiveMessage]
  {
    ValidateInOrder(Request(PutId, id, RequestBody(name, Num(n), Bool(availability))));
  }

  /** PUT with a bad path id and an otherwise valid body reports only the id
      message: the body checks contribute nothing. */
  lemma UpdateNonIntegerId(id: string, name: Field, n: int, availability: bool)
    requires !IsInt(id) && !IsEmptyField(name) && n > 0
    ensures Validate(Request(PutId, id, RequestBody(name, Num(n), Bool(availability)))) == [IdMessage]
  {
  }

  /** Every stored product can be addressed: the decimal text of its id
      passes the `/:id` check and names that same id. */
  lemma EveryIdAddressable(route: Route, n: int, body: RequestBody)
    requires route.GetId? || route.PatchId? || route.DeleteId?
    ensures Validate(Request(route, ShowInt(n), body)) == []
    ensures ParseInt(ShowInt(n)) == n
  {
    ParseShowInt(n);
  }

  // ---------------------------------------------------------- the gate

  /** `handleInputErrors`: a non-empty list of messages ends the request with
      400 and the list; an empty one lets the handler run. */
  function Gate(msgs: seq<string>): (r: Option<Response>)
    ensures r.Some? <==> msgs != []
    ensures r.Some? ==> r.value.status == 400 && r.value.body == ErrorList(msgs)
  {
    if msgs == [] then None else Some(Response(400, ErrorList(msgs)))
  }

  datatype Option<T> = None | Some(value: T)

  // ------------------------------------------------- from body to row

  /** The text stored for a name that passed `notEmpty`. */
  function NameText(f: Field): (s: string)
    requires !IsEmptyField(f)
    ensures s != ""
    ensures f.Text? ==> s == f.s
  {
    match f
    case Text(s) => s
    case Num(n) => ShowInt(n)
    case Bool(b) => if b then "true" else "false"
  }

  /** The integer stored for a price that passed `isNumeric` and `> 0`. */
  function PriceValue(f: Field): (n: int)
    requires IsNumericField(f) && IsPositiveField(f)
    ensures n > 0
    ensures f.Num? ==> n == f.n
  {
    match f
    case Num(n) => n
    case Text(s) => ParseInt(s)
  }

  /** The availability a created row gets: the body's boolean when there is
      one, and the column default when the field is absent. POST does not
      check this field, so any other value reaches the store, whose own
      conversion is not part of this model; here it also gets the column
      default. */
  function CreatedAvailability(f: Field, columnDefault: bool): (b: bool)
    ensures f.Bool? ==> b == f.b
    ensures !f.Bool? ==> b == columnDefault
  {
    if f.Bool? then f.b else columnDefault
  }

  // ---------------------------------------------------------- dispatch

  /** One request through its route: the validator chain, the gate, and on
      success the route's handler on the store. */
  method Handle(store: Store, req: Request, columnDefault: bool) returns (resp: Response)
    requires store.Valid()
    modifies store
    ensures store.Valid()
    // Only an accepted POST draws an id from the counter.
    ensures Validate(req) == [] && req.route.PostRoot? ==> store.nextId == old(store.nextId) + 1
    ensures !(Validate(req) == [] && req.route.PostRoot?) ==> store.nextId == old(store.nextId)
    // A rejected request answers 400 with every message and touches nothing.
    ensures Validate(req) != [] ==>
              && resp == Response(400, ErrorList(Validate(req)))
              && store.rows == old(store.rows) && store.nextId == old(store.nextId)
    // The validation rules keep every stored row well formed.
    ensures WellFormed(old(store.rows)) ==> WellFormed(store.rows)
    ensures req.route.GetRoot? ==>
              resp == GetProducts(old(store.rows)) && store.rows == old(store.rows)
    ensures Validate(req) == [] && req.route.GetId? ==>
              resp == GetProductByID(old(store.rows), ParseInt(req.id)) && store.rows == old(store.rows)
    ensures Validate(req) == [] && req.route.PostRoot? ==>
              var p := Product(old(store.nextId), NameText(req.body.name), PriceValue(req.body.price),
                               CreatedAvailability(req.body.availability, columnDefault));
              && old(store.nextId) !in old(store.rows)
              && store.rows == old(store.rows)[p.id := p]
              && resp == Response(201, Data(p))
    ensures Validate(req) == [] && req.route.PutId? ==>
              var id := ParseInt(req.id);
              if id in old(store.rows) then
                && store.rows == old(store.rows)[id := Replaced(old(store.rows)[id], NameText(req.body.name),
                                                                PriceValue(req.body.price), req.body.availability.b)]
                && resp == Response(200, Data(store.rows[id]))
              else
                resp == NotFound && store.rows == old(store.rows)
    ensures Validate(req) == [] && req.route.PatchId? ==>
              var id := ParseInt(req.id);
              if id in old(store.rows) then
                && store.rows == old(store.rows)[id := Toggled(old(store.rows)[id])]
                && resp == Response(200, Data(store.rows[id]))
              else
                resp == NotFound && store.rows == old(store.rows)
    ensures Validate(req) == [] && req.route.DeleteId? ==>
              var id := ParseInt(req.id);
              if id in old(store.rows) then
                store.rows == old(store.rows) - {id} && resp == Response(200, DataText(DeletedMessage))
              else
                resp == NotFound && store.rows == old(store.rows)
  {
    var msgs := Validate(req);
    var gate := Gate(msgs);
    if gate.Some? {
      return gate.value;
    }
    match req.route
    case GetRoot =>
      resp := GetProducts(store.rows);
    case GetId =>
      resp := GetProductByID(store.rows, ParseInt(req.id));
    case PostRoot =>
      resp := store.CreateProduct(NameText(req.body.name), PriceValue(req.body.price),
                                  CreatedAvailability(req.body.availability, columnDefault));
    case PutId =>
      resp := store.UpdateProduct(ParseInt(req.id), NameText(req.body.name), PriceValue(req.body.price),
                                  req.body.availability.b);
    case PatchId =>
      resp := store.UpdateAvailability(ParseInt(req.id));
    case DeleteId =>
      resp := store.DeleteProduct(ParseInt(req.id));
  }
}
