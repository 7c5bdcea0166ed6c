/** A flashcard: an immutable prompt/answer pair (Flashzilla/Card.swift). */
module Cards {

  datatype Card = Card(prompt: string, answer: string)
}
