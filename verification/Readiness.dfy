/** The control columns that are derived beside the validation status of a task. */
module Readiness {
  import opened RegisterRows
  import opened Text

  predicate IsRun(category: string) {
    category in {
      "Customer-to-Cash", "Inventory Lifecycle", "Procure-to-Pay", "Payments & Reconciliation",
      "Returns / Complaints / After-Sales", "Operations, Fleet & Delivery", "Workshop Job", "Manufacturing",
      "Multi-Godown / Multi-Store", "Project Billing"}
  }

  predicate IsControl(category: string) {
    category in {
      "GST / Tax / Compliance", "Receivables & Payables", "Reporting & Business Intelligence",
      "Import / Export / Period Close", "Finance & Fixed Assets", "Security / Exception / Recovery",
      "Payroll & Statutory Dues"}
  }

  predicate IsVertical(category: string) {
    category in {
      "Payroll & Statutory Dues", "Workshop Job", "Manufacturing", "Project Billing", "Insurance Distribution"}
  }

  function OsLayer(category: string): string {
    if IsRun(category) then "RUN"
    else if IsControl(category) then "CONTROL"
    else if At(category, "Growth OS", 0) then "GROW"
    else if category in {"Sales / CRM / Customer Lifecycle", "Insurance Distribution"} then "GROW"
    else "KERNEL"
  }

  function CapabilityClass(row: TaskRow): string {
    if row.priority == "P3" || row.kind == "D" then "Future"
    else if IsVertical(row.category) then "Vertical extension"
    else if row.kind == "SaaS" then "Adjacent"
    else if row.kind in {"UX", "I"} then "Differentiator"
    else "Core"
  }

  function FailureImpact(row: TaskRow): string {
    if row.category in {"GST / Tax / Compliance", "Payments & Reconciliation", "Inventory Lifecycle",
                        "Finance & Fixed Assets", "Receivables & Payables", "Payroll & Statutory Dues"} then "High"
    else if row.priority == "P3" then "Low"
    else "Medium"
  }

  function ComplianceImpact(row: TaskRow): string {
    if row.category in {"GST / Tax / Compliance", "Payroll & Statutory Dues", "Finance & Fixed Assets"} then "High"
    else if row.category in {"Security / Exception / Recovery", "Receivables & Payables"} then "Medium"
    else "Low"
  }

  function Impact(level: string): int {
    if level == "High" then 3 else if level == "Medium" then 2 else 1
  }

  function ClassWeight(capability: string): int {
    if capability == "Core" then 3
    else if capability in {"Vertical extension", "Differentiator"} then 2
    else 1
  }

  function RiskScore(row: TaskRow): int {
    Impact(FailureImpact(row)) * Impact(ComplianceImpact(row)) * ClassWeight(CapabilityClass(row))
  }

  function Criticality(row: TaskRow): string {
    var score := RiskScore(row);
    if score >= 18 then "Critical" else if score >= 9 then "High" else if score >= 4 then "Medium" else "Low"
  }

  function ReleaseGate(row: TaskRow): string {
    if row.priority == "P0" then "MVP"
    else if row.priority == "P1" && CapabilityClass(row) == "Core" && OsLayer(row.category) in {"RUN", "CONTROL"} then
      "Pilot"
    else "Later"
  }

  function WorkStatus(status: string, outcome: string): string {
    if status == "Mechanism not found" || outcome == "Mechanism not found" then "Gap"
    else if status == "Partial" || outcome == "Partial" then "Built - partial"
    else if outcome == "Code symbol found" || status in {"In product", "Code Complete & Verified"} then
      "Built - unverified"
    else "Claimed - unverified"
  }

  function CodeEvidence(status: string, outcome: string): string {
    if status == "Mechanism not found" || outcome == "Mechanism not found" then "Not in code"
    else if status == "Partial" || outcome == "Partial" then "Partial"
    else if outcome == "Code symbol found" || status == "In product" then "Cited in code"
    else if status == "Code Complete & Verified" then "Cited in code"
    else "Not independently checked"
  }

  function Derive(row: TaskRow, outcome: string, evidence: Evidence): OsFields {
    var result := Field(evidence, "Verification result");
    OsFields(
      OsLayer(row.category), CapabilityClass(row), Criticality(row), FailureImpact(row), ComplianceImpact(row),
      ReleaseGate(row), CodeEvidence(row.status, outcome), "No", WorkStatus(row.status, outcome), row.priority,
      RiskScore(row),
      Field(evidence, "Owner"), Field(evidence, "Target date"), Field(evidence, "Estimate days"),
      Field(evidence, "Blocked by"), Field(evidence, "Test case ID"), Field(evidence, "Last verified"),
      Field(evidence, "Verified by"), if result == "" then "Not run" else result)
  }
}
