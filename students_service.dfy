/** `StudentsService.create`: the CPF of the body is run through `normalizeCpf`,
    whose outcome is not consulted, and the record is built from the body as
    supplied. (`findAll` is `Pagination.FindAllQuery`.) */
module StudentsService {
  import opened Wrappers
  import opened Json
  import opened Outcomes
  import Cpf

  /** `normalizeCpf(cpf, next)` for the `cpf` property of the body: anything but
      a string fails on its first statement with a `TypeError`. */
  function CpfCheck(data: Record): (r: Cpf.CpfOutcome)
    ensures "cpf" in data && data["cpf"].JStr? ==> r == Cpf.Validate(data["cpf"].s)
    ensures !("cpf" in data && data["cpf"].JStr?) ==> r == Cpf.Crashed(TypeErrorInfo)
  {
    match Property(data, "cpf")
    case Some(JStr(cpf)) => Cpf.Validate(cpf)
    case _ => Cpf.Crashed(TypeErrorInfo)
  }

  /** What `create` did before its persistence call: the CPF outcome (a
      `Rejected` one was passed to `next`), and the record handed to
      `prisma.student.create`, if it got that far. */
  datatype CreateStep = CreateStep(validation: Cpf.CpfOutcome, record: Option<Record>)

  /** `const { cpf, ...rest } = data; normalizeCpf(cpf, next); create({ cpf, ...rest })`. */
  function Create(data: Record): (step: CreateStep)
    ensures step.validation == CpfCheck(data)
    ensures step.record.Some? <==> !step.validation.Crashed?
    ensures step.record.Some? ==> step.record.value == data
  {
    var validation := CpfCheck(data);
    if validation.Crashed? then CreateStep(validation, None)
    else
      var cpf, rest := data["cpf"], data - {"cpf"};
      CreateStep(validation, Some(rest[ "cpf" := cpf ]))
  }

  /** The record keeps the CPF exactly as supplied, separators included, and
      is built even when the CPF was rejected. */
  lemma RecordKeepsRawCpf(data: Record)
    requires CpfCheck(data).Rejected? || CpfCheck(data).Accepted?
    ensures Create(data).record == Some(data)
    ensures Create(data).record.value["cpf"] == data["cpf"]
  {
  }
}
