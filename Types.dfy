/** The records the front end exchanges with the posts REST API. */
module Types {

  /** A post; `userId` refers to its author. */
  datatype Post = Post(id: int, title: string, body: string, userId: int)

  /** An author, as far as the modelled logic looks at one. */
  datatype User = User(id: int, name: string)

  datatype ViewMode = Grid | Table

  datatype ThemeMode = Light | Dark
}
