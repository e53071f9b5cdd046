/**
 * The records of the gym dashboard (types.ts), as values.
 *
 * Identifiers and free text are strings, instants are integer timestamps
 * (milliseconds), money is a real number of reais, and the loosely typed
 * results of parsing stored or pasted text are the datatype `Parsed`.
 */
module Types {

  datatype Option<+T> = None | Some(value: T)

  /** The supplied value, or `otherwise` when there is none (a spread that may lack the field). */
  function Or<T>(o: Option<T>, otherwise: T): T {
    match o
    case Some(v) => v
    case None => otherwise
  }

  /** The two belt categories; `TypeLabel` gives the text the source stores. */
  datatype BeltType = Kid | Adult

  function TypeLabel(t: BeltType): (s: string)
    ensures |s| > 0
  {
    match t
    case Kid => "Infantil"
    case Adult => "Adulto"
  }

  datatype PaymentStatus = Paid | Pending | Overdue | BoletoGerado

  /** The text the source stores for a status. */
  function StatusLabel(st: PaymentStatus): (s: string)
    ensures |s| > 0
  {
    match st
    case Paid => "Pago"
    case Pending => "Pendente"
    case Overdue => "Atrasado"
    case BoletoGerado => "Boleto Gerado"
  }

  /** A stripe count is one of 0, 1, ..., 6. */
  type Stripe = k: int | 0 <= k <= 6

  datatype Belt = Belt(name: string, color: string, beltType: BeltType)

  datatype Promotion = Promotion(date: int, belt: Belt, stripes: Stripe)

  datatype Payment = Payment(
    id: string,
    date: int,
    amount: real,
    status: PaymentStatus,
    plan: string,
    dueDate: Option<int>)

  /**
   * A student record. `promotionHistory` is declared by the record type but
   * nothing in the application writes it, so records created by the
   * application carry `None` there.
   */
  datatype Student = Student(
    id: string,
    name: string,
    age: int,
    belt: Belt,
    stripes: Stripe,
    classesAttended: int,
    startDate: int,
    phone: string,
    address: string,
    payments: seq<Payment>,
    isActive: bool,
    promotionHistory: Option<seq<Promotion>>)

  /**
   * The per-belt graduation thresholds. A field is `None` when the stored
   * object lacks it (an entry created by editing one field of a belt that
   * had no entry has only that field).
   */
  datatype GradConfig = GradConfig(classesForStripe: Option<int>, classesForBelt: Option<int>)

  /** Graduation settings, keyed by belt key (`name-type`). */
  type GraduationSettings = map<string, GradConfig>

  datatype Plan = Plan(id: string, name: string, price: real)

  datatype AppSettings = AppSettings(theme: string, plans: seq<Plan>, pixKey: string)

  /** The three sections of a backup, as exported. */
  datatype BackupData = BackupData(
    students: seq<Student>,
    graduationSettings: GraduationSettings,
    appSettings: AppSettings)

  /**
   * What parsing stored or pasted text yields: a parse error, `null`, a
   * number/string/boolean (with its truthiness), an array, or an object
   * whose fields are described by `T`.
   */
  datatype Parsed<T> = Unparsable | JsonNull | JsonScalar(truthy: bool) | JsonArray | JsonObject(fields: T)

  /** The calendar collaborator: local year and zero-based month of an instant. */
  datatype Calendar = Calendar(yearOf: int -> nat, monthOf: int -> nat)
}
