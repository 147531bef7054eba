/** The rows of the task register: the twelve stored columns and what a review derives from them. */
module RegisterRows {

  /** The first twelve columns. */
  datatype TaskRow = TaskRow(
    id: string, kind: string, persona: string, category: string, action: string, actor: string,
    supporting: string, outcome: string, downstream: string, priority: string, status: string, notes: string)

  /** Hand or CI evidence for a task, by column name; an absent column reads as empty. */
  type Evidence = map<string, string>

  function Field(e: Evidence, name: string): string {
    if name in e then e[name] else ""
  }

  datatype OsFields = OsFields(
    layer: string, capability: string, criticality: string, failureImpact: string, complianceImpact: string,
    gate: string, codeEvidence: string, osReady: string, workStatus: string, proposed: string, risk: int,
    owner: string, targetDate: string, estimate: string, blockedBy: string, testCase: string,
    lastVerified: string, verifiedBy: string, result: string)

  /** A reviewed row; `dependsOn` is the cell that linking fills in place. */
  datatype ReviewedRow = ReviewedRow(
    task: TaskRow, slice: string, scope: string, authored: string, decision: string, outcome: string, audit: string,
    flowId: string, flowName: string, step: string, flowModule: string, os: OsFields, dependsOn: string)
}
