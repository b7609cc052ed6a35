/**
 * The two branch callables of the DAG. Each maps what it observes to the
 * task id of the successor to run; Airflow skips the other successors.
 */
module Routing {
  import opened Wrappers

  const SensorFile: string := "sensor_file"
  const DownloadFile: string := "download_file"

  /**
   * check_file_at_path: whether the CSV already sits at its canonical path
   * (the file-system probe is the input) decides between waiting for it and
   * downloading it. Always exactly one of the two task ids.
   */
  function CheckFileAtPath(fileExists: bool): (task: string)
    ensures task == SensorFile || task == DownloadFile
    ensures task == SensorFile <==> fileExists
    ensures task == DownloadFile <==> !fileExists
  {
    if fileExists then SensorFile else DownloadFile
  }

  const Furniture: string := "Furniture"
  const OfficeSupplies: string := "Office Supplies"
  const Technology: string := "Technology"

  /** The closed set of category names the branch knows. */
  const Categories: seq<string> := [Furniture, OfficeSupplies, Technology]

  const FurnitureTask: string := "get_furniture_sales"
  const OfficeSuppTask: string := "get_office_supp_sales"
  const TechnologyTask: string := "get_technology_sales"

  /**
   * category_definition_func: exact string match against the three known
   * categories; any other value falls off the end of the function and the
   * callable returns None.
   */
  function CategoryDefinition(category: string): (task: Option<string>)
    ensures task.Some? <==> category in Categories
    ensures task.Some? ==> task.value in [FurnitureTask, OfficeSuppTask, TechnologyTask]
  {
    if category == Furniture then Some(FurnitureTask)
    else if category == OfficeSupplies then Some(OfficeSuppTask)
    else if category == Technology then Some(TechnologyTask)
    else None
  }

  /**
   * The category whose name each get_*_sales callable passes to
   * query_dm_template; None for a task id that is not one of them.
   */
  function WrapperCategory(task: string): (category: Option<string>)
    ensures category.Some? <==> task in [FurnitureTask, OfficeSuppTask, TechnologyTask]
  {
    if task == FurnitureTask then Some(Furniture)
    else if task == OfficeSuppTask then Some(OfficeSupplies)
    else if task == TechnologyTask then Some(Technology)
    else None
  }

  /**
   * The branch and the mart callables agree: the branch picks the one task
   * that builds the mart for the drawn category, and every mart task is
   * reachable from exactly its own category.
   */
  lemma BranchSelectsMatchingMart(category: string, task: string)
    ensures CategoryDefinition(category) == Some(task) <==> WrapperCategory(task) == Some(category)
  {
  }

  /** Distinct known categories never share a branch. */
  lemma CategoryDefinitionInjective(a: string, b: string)
    requires CategoryDefinition(a).Some?
    ensures CategoryDefinition(a) == CategoryDefinition(b) <==> a == b
  {
  }
}
