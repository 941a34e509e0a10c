/** The records the checklist keeps: a selected feature and the visitor
    record, and the optional value that stands for an absent key, an
    absent attribute or a parse that throws. */
module Records {
  import JsNumber

  datatype Option<T> = None | Some(value: T)

  /** An optional string that JavaScript treats as true in a condition or
      before `||`: present and not the empty string. This is how the code
      tests checkbox attributes and the values it reads from storage. */
  predicate Truthy(s: Option<string>)
  {
    s.Some? && s.value != ""
  }

  /** `{category, feature}`: one ticked checklist item. */
  datatype SelectedFeature = SelectedFeature(category: string, feature: string)

  /** `{count, location, visitTime}`: the visit record of a session. */
  datatype VisitorData = VisitorData(count: JsNumber.Value, location: string, visitTime: string)
}
