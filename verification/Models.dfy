/** The leaf records of a Project_Profile and the validity its constructor enforces. */
module Models {
  import opened Base

  datatype SourceLocation = SourceLocation(path: string, line: Option<int>)

  datatype AccessMode = Read | Write | ReadWrite | Unknown

  datatype TableDependency = TableDependency(name: string, mode: AccessMode, locations: seq<SourceLocation>)

  datatype ServiceKind = HttpApi | MessageBroker | ObjectStore | Cache | AuthProvider | OtherKind

  datatype ServiceDependency = ServiceDependency(name: string, kind: ServiceKind, locations: seq<SourceLocation>)

  datatype InputCategory = HttpRequest | ScheduledEvent | MessageConsumed | FileRead | CliArgument | OtherInput

  datatype OutputCategory = HttpResponse | MessagePublished | FileWritten | DatabaseWrite | ExternalCall | OtherOutput

  /** An abstract input or output: its category and its description. */
  datatype Entry<Category> = Entry(category: Category, description: string)

  ghost predicate UniqueTableNames(deps: seq<TableDependency>) {
    forall i, j :: 0 <= i < j < |deps| ==> deps[i].name != deps[j].name
  }

  ghost predicate UniqueServiceNames(deps: seq<ServiceDependency>) {
    forall i, j :: 0 <= i < j < |deps| ==> deps[i].name != deps[j].name
  }

  /** What a profile demands of its table dependencies: named, located, one entry per name. */
  ghost predicate ValidTables(deps: seq<TableDependency>) {
    && (forall d :: d in deps ==> d.name != "" && d.locations != [])
    && UniqueTableNames(deps)
  }

  /** What a profile demands of its service dependencies. */
  ghost predicate ValidServices(deps: seq<ServiceDependency>) {
    && (forall d :: d in deps ==> d.name != "" && d.locations != [])
    && UniqueServiceNames(deps)
  }
}
