/** The result records of a provisioning run.  Status and reason are free strings in the
    code: "Replaced", "Skipped", "Created", "Unchanged" or "Error", and reasons such as
    "same-hash" or "dry-run". */
module Results {
  import opened Values
  import opened TemplateModel

  datatype FileResult = FileResult(
    path: string,
    status: string,
    reason: string,
    template: string,
    variablesUsed: Variables)

  datatype ProvisionResult = ProvisionResult(
    template: Template,
    isDryRun: bool,
    processedFiles: seq<FileResult>)
}
