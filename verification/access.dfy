/**
 Who may see, download and inspect a document.
 */
module Access {
  import opened Documents

  /** `document_available?`: a public document is available to everyone; a
      restricted one only to a signed-in user, and only when it belongs to
      this institution. */
  function DocumentAvailable(doc: Document, signedIn: bool): (r: bool)
    ensures doc.isPublic ==> r
    ensures !doc.isPublic ==> (r <==> doc.sameInstitution && signedIn)
  {
    doc.isPublic || (doc.sameInstitution && signedIn)
  }

  /** `document_downloadable?`: an available document whose downloadable
      flag is set. */
  function DocumentDownloadable(doc: Document, signedIn: bool): (r: bool)
    ensures r ==> DocumentAvailable(doc, signedIn)
    ensures r <==> doc.downloadable && (doc.isPublic || (doc.sameInstitution && signedIn))
  {
    DocumentAvailable(doc, signedIn) && doc.downloadable
  }

  /** `show_attribute_table?`: an available document that can be
      inspected. */
  function ShowAttributeTable(doc: Document, signedIn: bool): (r: bool)
    ensures r ==> DocumentAvailable(doc, signedIn)
    ensures r <==> doc.inspectable && (doc.isPublic || (doc.sameInstitution && signedIn))
  {
    DocumentAvailable(doc, signedIn) && doc.inspectable
  }

  /** Signing in never takes access away, and a document that signing in
      makes available is a restricted one of this institution. */
  lemma SigningInOnlyAdds(doc: Document)
    ensures DocumentAvailable(doc, false) ==> DocumentAvailable(doc, true)
    ensures DocumentDownloadable(doc, false) ==> DocumentDownloadable(doc, true)
    ensures ShowAttributeTable(doc, false) ==> ShowAttributeTable(doc, true)
    ensures DocumentAvailable(doc, true) && !DocumentAvailable(doc, false) ==>
      !doc.isPublic && doc.sameInstitution
  {
  }
}
